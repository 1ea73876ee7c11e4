# zibll-ad: ad-slot sales, modelled in Dafny

zibll-ad is a WordPress plugin. It sells advertising positions on a site that runs the Zibll theme. An administrator creates **slots** (an image or text ad area of a given size). Each slot is cut into **units**, one per position (`unit_key` 0 .. `max_items`-1).

A visitor reserves a unit with `prepare_order`: the unit becomes `pending` for the payment window, and a signed reservation is stored in a transient. The theme's payment system (ZibPay) then calls back:
- when the order is created;
- when it is paid: the unit becomes `paid` for whole 30-day months;
- when it is closed.

The plugin keeps its own **order ledger** (`zibll_ad_orders`). A cron job expires lapsed sales and releases lapsed reservations. A reconciliation job replays payments whose callback was missed. The admin REST API sells, edits and takes down ads by hand, reports per-slot statistics, and mounts each slot's widget into sidebars.

The model is a set of pure functions over immutable values:

| module | models |
|---|---|
| `Common` | PHP values and the PHP built-ins the code relies on (`intval`, `absint`, `trim`, `array_unique`, `array_diff`, `array_intersect`, `isset`) |
| `Compat` | the polyfills of `compat.php` |
| `Helpers` | the global helpers of `helpers.php` |
| `Settings` | the plugin options (`class-settings.php`) |
| `Config`, `Pricing` | a slot's pricing meta and the two price calculations |
| `Units` | the unit table (`class-unit-model.php`) |
| `Ledger` | the order ledger (`class-order-model.php`) |
| `Slots` | slot creation, resizing, deletion and rendering (`class-slot-model.php`) |
| `Validators` | the URL and contact validators of the purchase handler (`class-ajax.php`) |
| `Checks` | the request checks of `prepare_order` and the errors they report |
| `Ajax` | the order signature and the payment-method filter of the pay form |
| `MemoryLimit` | `parse_memory_limit` of the purchase handler |
| `Reservation` | the locked read-check-write of a unit that `prepare_order` runs |
| `Prepare` | `prepare_order` itself: the checks in order, the commit after the reservation, the signed order data and the pending ledger row |
| `OrderSync` | the ZibPay callbacks (`class-order-sync.php`) |
| `Reconcile` | the reconciliation job |
| `Expire` | the expiry cron job |
| `Admin` | the admin REST handlers that touch units, orders and layouts |
| `Widgets` | the sidebar widget manager |

The model has these conventions:
- **Tables.** A table is a map from auto-increment id to row, plus the next id. A unit row carries its own (slot, key) position, so a duplicate position can be represented. The table invariant `Units.Valid` says that ids are below the next id, rows are well formed, and at most one row sits at a position. `Units.AtMostOneOccupied` follows from it: no position is ever reserved or sold twice.
- **Values.** Money is integer cents. Time is a `Clock` with a Unix second count (`time()`) and a local one (`current_time('mysql')`).
- **Foreign code.** Foreign primitives are function-valued parameters: `filter_var`, `is_email`, the HMAC, `parse_url`'s host, the attachment URL lookup and `strtotime`.
- **Database failures.** A failing write is a boolean parameter.

## Model

| member | source | states |
|---|---|---|
| Compat.StrPos | includes/compat.php:45-50 | the position found is an occurrence of the needle at or after the start, and no earlier position from the start is one |
| Compat.StrContains | includes/compat.php:45-50 | `str_contains` holds exactly when the needle occurs somewhere in the haystack |
| Compat.StrStartsWith | includes/compat.php:55-57 | `str_starts_with` holds exactly when the needle is a prefix |
| Compat.StrEndsWith | includes/compat.php:62-68 | `str_ends_with` holds exactly when the needle is a suffix |
| Compat.ArrayKeyFirst | includes/compat.php:24-29 | no key only for an empty array, otherwise the first key |
| Compat.ArrayKeyLast | includes/compat.php:34-40 | no key only for an empty array, otherwise the last key |
| Compat.LastIsFirstOfReverse | includes/compat.php:24-40 | the last key of an array is the first key of its reversal |
| Helpers.GetOption | includes/helpers.php:20-28 | the stored value when the key is set and not NULL, the default otherwise |
| Helpers.HttpSchemeIsPrefix | includes/helpers.php:227-230 | the position-zero `strpos` scheme test is the prefix test for http:// or https:// |
| Helpers.ValidateUrl | includes/helpers.php:216-233 | an accepted URL is a string that `filter_var` accepts and that starts with http:// or https:// |
| Helpers.ContactRule | includes/helpers.php:259-279 | only qq, wechat and email are known; a QQ number has at least five digits and no leading zero |
| Helpers.ValidateContact | includes/helpers.php:247-280 | an accepted contact is a string whose trimmed value is non-empty and passes its type's rule |
| Helpers.AboveZeroIntVal | includes/helpers.php:351-352 | a string that passes the `> 0` test has a non-negative `intval` |
| Helpers.OrderTimeout | includes/helpers.php:347-358 | the window is 30 minutes without the theme or for a setting that is not truthy and above 0; otherwise it is the setting's `intval`, never negative, and a positive integer setting is taken as is |
| Helpers.FractionalTimeoutIsZero | includes/helpers.php:350-352 | a setting of "0.5" passes the test and gives a window of 0 minutes |
| Helpers.HalfIsAboveZero | includes/helpers.php:351 | "0.5" compares above 0 |
| Helpers.HalfIntVal | includes/helpers.php:352 | `intval("0.5")` is 0 |
| Helpers.BuildRedirectUrl | includes/helpers.php:540-583 | an invalid URL and an already wrapped one are returned unchanged |
| Helpers.WrappingIsIdempotent | includes/helpers.php:540-583 | when the link builder's output is recognised as wrapped, wrapping twice is wrapping once |
| Helpers.MaybeRedirectUrl | includes/helpers.php:591-596 | with `link_redirect` off nothing is wrapped, and only http(s) URLs are ever changed |
| Helpers.RedirectOnByDefault | includes/helpers.php:591-596 | with `link_redirect` unset or truthy every link goes through the wrapper, and with it falsy none does |
| Config.PaymentOverride | includes/class-order-sync.php:882-886 | a slot restricts the payment methods exactly when its override is a non-empty array |
| Settings.Defaults | includes/class-settings.php:24-43 | every known option has its documented default |
| Settings.NormalTypes | includes/class-settings.php:58-68 | the file-type list read back is lower-case and has no duplicates |
| Settings.GetAll | includes/class-settings.php:50-76 | the settings read are normal (typed, types lower-case and distinct), no saved array gives the defaults, and image upload off forces guest image upload off |
| Settings.AllowedTypesNormal | includes/class-settings.php:177-179 | the allowed image types are already a normal list, so normalising them changes nothing |
| Settings.AsStore | includes/class-settings.php:50-76 | the array `get_all` returns holds every typed known key and exactly the unknown keys saved |
| Settings.Clamp | includes/class-settings.php:113-119 | the clamped value lies in range and a value already in range is kept |
| Settings.SanitizeTypes | includes/class-settings.php:121-132 | the cleaned file types are distinct allowed types and never empty |
| Settings.SanitizedKeys | includes/class-settings.php:98-170 | `sanitize` emits only known keys |
| Settings.Sanitize | includes/class-settings.php:98-170 | only keys present in the input are emitted, except guest image upload, which is emitted only when image upload is switched off |
| Settings.Update | includes/class-settings.php:84-90 | the returned settings are those read back from what was stored, with the submitted sizes and days clamped |
| Settings.CleanReadsBack | includes/class-settings.php:98-170 | the clamped size and notice days that `sanitize` produced read back unchanged |
| Settings.CleanTypesStable | includes/class-settings.php:121-132 | the cleaned file-type list reads back unchanged |
| Settings.NormalTypesStable | includes/class-settings.php:58-68 | normalising a list that is already distinct and lower-case changes nothing |
| Settings.GetAllIdempotent | includes/class-settings.php:50-76 | storing what `get_all` returned and reading it again gives the same settings |
| Settings.ReadBack | includes/class-settings.php:50-76 | any normal configuration reads back as itself |
| Pricing.MatchingPackage | includes/frontend/class-ajax.php:1856-1863 | the match is the first package whose months equal the duration |
| Pricing.MatchingColor | includes/frontend/class-ajax.php:1880-1891 | the match is the first colour option with the chosen key |
| Pricing.ColorSurcharge | includes/frontend/class-ajax.php:1880-1891 | an empty colour key, no options or no match costs nothing; otherwise the matched option's price |
| Pricing.PositionDiffShape | includes/frontend/class-ajax.php:1894-1910 | the carousel position difference is non-zero exactly when it applies, and then it is negative for `decrement` and positive otherwise |
| Pricing.BasePrice | includes/frontend/class-ajax.php:1854-1877 | a package plan is refused only when no package matches or the matched one has no price; a custom plan is refused unless the single-month price is positive, and otherwise costs that price times the months |
| Pricing.CalculatePrice | includes/frontend/class-ajax.php:1848-1923 | refused exactly when the base price is refused; otherwise the parts are reported and the total is their sum clamped at 0 |
| Pricing.CustomPricePositive | includes/frontend/class-ajax.php:1868-1877 | without a decrementing difference and with non-negative colour prices, a custom plan costs at least the single-month price times the months |
| Pricing.DecrementCanZeroPrice | includes/frontend/class-ajax.php:1912-1915 | a decrementing carousel difference can clamp the total to 0 |
| Pricing.ZeroPricedPackageAccepted | includes/frontend/class-ajax.php:1858-1867 | a package priced 0 is not refused |
| Pricing.LabelMatch | includes/helpers.php:145-159 | the helper's match is the first package whose label equals the plan |
| Pricing.HelperColorAgrees | includes/helpers.php:181-190 | the helper and the purchase path pick the same colour surcharge |
| Pricing.HelperPrice | includes/helpers.php:135-202 | the helper's total is base plus colour; a label match buys that package, and anything else is a month count of at least one |
| Pricing.HelperAgreesOnCustomPlan | includes/helpers.php:162-178 | both calculations agree on a custom plan whenever the purchase path neither refuses, nor adds a position difference, nor clamps |
| Units.UniqueKeysGiveOneOccupant | includes/class-unit-model.php:41-53 | a table with unique positions has at most one pending or paid row per position |
| Units.Put | includes/class-unit-model.php:89-106 | an update by primary key rewrites only that row and keeps the id set |
| Units.Insert | includes/class-unit-model.php:61-80 | an insert adds exactly one row, under a fresh id |
| Units.Find | includes/class-unit-model.php:41-53 | the row found sits at the position asked for, and no lower id sits there |
| Units.SetPending | includes/class-unit-model.php:116-159 | the lock succeeds exactly when the position has a row that is available or whose lock has lapsed, and it then holds the row for the minutes given |
| Units.SetPaid | includes/class-unit-model.php:169-224 | only the row named changes; it is paid with a term of the months given from now, copying only the ad columns supplied |
| Units.SetExpired | includes/class-unit-model.php:232-255 | only the row's status changes, to expired |
| Units.Cleared | includes/class-unit-model.php:276-302 | a cleared row keeps its position, is available, and has no content, order or term |
| Units.SetAvailable | includes/class-unit-model.php:264-317 | only the row named changes; it becomes available, and is cleared when asked |
| Units.CleanedTable | includes/class-unit-model.php:324-348 | the cleanup's intended result: every lapsed pending row cleared, every other row untouched |
| Units.CleanupExpiredPending | includes/class-unit-model.php:324-348 | the release loop computes exactly that result and counts every lapsed row |
| Units.CleanupIdempotent | includes/class-unit-model.php:324-348 | a second cleanup at the same instant finds nothing to release |
| Units.FindSameCells | includes/class-unit-model.php:41-53 | the lookup depends only on where the rows sit |
| Units.PutKeepsValid | includes/class-unit-model.php:89-106 | rewriting a row in place at its own position keeps the table valid |
| Units.TransitionsKeepValid | includes/class-unit-model.php:116-317 | every single-row transition keeps the table valid, so no position is occupied twice |
| Units.CleanupKeepsValid | includes/class-unit-model.php:324-348 | the cleanup keeps the table valid |
| Ledger.RowsOf | includes/class-order-sync.php:593-603 | the rows found are exactly those that carry the provider order |
| Ledger.Append | includes/class-order-sync.php:604-612 | an insert adds one row under the next id |
| Ledger.UpdateWhere | includes/class-order-model.php:229-240 | an UPDATE rewrites exactly the rows named and keeps the id set |
| Ledger.PendingWithToken | includes/class-order-sync.php:571-592 | the rows found are exactly the pending rows of the attempt token |
| Ledger.UpdateKeepingIdsKeepsUnique | includes/class-order-sync.php:571-602 | an UPDATE that keeps provider ids adds no duplicate provider order |
| Ledger.AppendKeepsUnique | includes/class-order-sync.php:593-612 | inserting a row for a provider order no row carries adds no duplicate |
| Ledger.DisplayStatus | includes/class-order-model.php:405-415 | a unit shows as paid exactly when it is stored paid and its end time is not reached; the only correction is paid to expired |
| Ledger.JoinedStatus | includes/class-order-model.php:150-189 | no unit status exactly when the join finds no unit |
| Ledger.Takedown | includes/class-order-model.php:202-248 | a missing order, a non-paid order, a missing unit and a unit not shown as paid are refused in that order; otherwise the unit is released and cleared and the order becomes `takedown` |
| Ledger.TakedownKeepsInvariants | includes/class-order-model.php:202-248 | a takedown keeps the unit table valid and provider ids unique |
| Ledger.TakedownRefusesLapsedTerm | includes/class-order-model.php:218-221 | a unit still stored as paid whose term is over cannot be taken down |
| Ledger.CapDeny | includes/class-order-model.php:279-282 | the deny-list keeps its last 1000 entries |
| Ledger.RecordDeleted | includes/class-order-model.php:267-286 | a deleted provider order is on the deny-list afterwards, and nothing else is added |
| Ledger.CappedAppend | includes/class-order-model.php:267-286 | trimming the list after appending keeps the new id, brings in nothing else and keeps the entries distinct |
| Ledger.Delete | includes/class-order-model.php:259-308 | a missing order is refused; the provider id is denied before the row is deleted, even when the delete fails |
| Ledger.DeleteKeepsUnique | includes/class-order-model.php:259-308 | a delete keeps provider ids unique |
| Ledger.FirstSet | includes/class-order-model.php:435-451 | the value is the first candidate that is set, or "" when none is |
| Ledger.NormalizeRow | includes/class-order-model.php:383-480 | an order is active exactly when its unit shows as paid, and it has a unit status exactly when the unit exists |
| Ledger.ClearedUnitShowsSnapshot | includes/class-order-model.php:435-451 | after a takedown clears the unit, the list still shows the buyer's fields from the snapshot |
| Ledger.OrderByOf | includes/class-order-model.php:26-142 | `id` and `paid_at` sort by themselves, and any other column sorts by creation time |
| Ledger.FilterOn | includes/class-order-model.php:26-142 | an argument adds a condition exactly when it is not empty, and the slot condition compares with its `absint`, 0 included |
| Ledger.QueryFilters | includes/class-order-model.php:26-142 | a non-empty `slot_id` always adds the slot condition on its `absint`, and an empty status adds no status condition |
| Ledger.NonNumericSlotFiltersOnZero | includes/class-order-model.php:68-71 | a non-numeric `slot_id` filters on slot 0 instead of being dropped |
| Ledger.LettersReadAsZero | includes/class-order-model.php:70 | `intval("abc")` is 0 |
| Ledger.QueryOf | includes/class-order-model.php:26-142 | page and page size are at least one, and the offset is the rows of the earlier pages |
| Ledger.CountFilters | includes/class-order-model.php:316-374 | the status counts never filter by status |
| Ledger.DropStatusOfQuery | includes/class-order-model.php:26-142 | the list filters without the status filter |
| Ledger.CountMatchesQuery | includes/class-order-model.php:316-374 | the status counts use exactly the list's filters without the status filter, so the buckets add up to the unfiltered total |
| Slots.Blank | includes/class-slot-model.php:350-367 | a new unit row is available at its position with no content and no term |
| Slots.SlotIds | includes/class-slot-model.php:160-186 | the ids are exactly the rows of the slot |
| Slots.InsertKeys | includes/class-slot-model.php:350-367 | one row is inserted per key in the range, and nothing else changes |
| Slots.InsertKeysKeepsValid | includes/class-slot-model.php:350-367 | inserting keys the slot lacks keeps positions unique |
| Slots.InsertKeysFinds | includes/class-slot-model.php:350-367 | every inserted key is found afterwards |
| Slots.CreateUnits | includes/class-slot-model.php:94-118 | a new slot gets one available row per key and nothing else changes |
| Slots.CreateUnitsKeepsValid | includes/class-slot-model.php:94-118 | creating a slot's units keeps the table valid |
| Slots.DeleteTop | includes/class-slot-model.php:400-413 | the shrinking DELETE removes only removable rows of the slot, at most the number asked for, and fewer only when none is left |
| Slots.DeleteTopTakesBest | includes/class-slot-model.php:400-413 | every deleted row ranks above every removable row that stays (`ORDER BY unit_key DESC`) |
| Slots.BestRanksFirst | includes/class-slot-model.php:400-413 | the row picked first ranks above every other removable row |
| Slots.AdjustUnitsAsWritten | includes/class-slot-model.php:375-414 | the resize as written changes only the slot's available rows |
| Slots.AdjustUnitsAsWrittenKeepsOneOccupant | includes/class-slot-model.php:375-414 | even as written, a resize never puts two occupied rows on one position |
| Slots.ShrinkKeepsPaidKey | includes/class-slot-model.php:400-413 | shrinking a slot whose top key is paid deletes only the free key below it |
| Slots.AdjustUnitsAsWrittenDuplicatesKey | includes/class-slot-model.php:380-399 | growing after that shrink inserts a second row for the paid key |
| Slots.InsertFresh | includes/class-slot-model.php:386-399 | inserting at a free position keeps the table valid and the position is found |
| Slots.FillKeys | includes/class-slot-model.php:386-399 | the intended growth inserts exactly the keys the slot lacks and keeps every old row |
| Slots.FindKeepsFinding | includes/class-slot-model.php:386-399 | a table that only gains rows keeps every position it had |
| Slots.AdjustUnits | includes/class-slot-model.php:375-414 | the intended resize finds every key below the size and keeps every old row it does not delete |
| Slots.AdjustUnitsKeepsValid | includes/class-slot-model.php:375-414 | the intended resize keeps positions unique |
| Slots.NewSlotUnits | includes/class-slot-model.php:94-118 | a new slot's units follow its layout, three when the layout sets no size |
| Slots.UpdateSlotUnitsAsWritten | includes/class-slot-model.php:127-152 | `update` as written resizes with the as-written `adjust_units`, only when the layout sets `max_items`, and otherwise leaves the table unchanged |
| Slots.UpdateAsWrittenKeepsOneOccupant | includes/class-slot-model.php:144-147 | even as written, an update never puts two occupied rows on one position |
| Slots.UpdateAsWrittenBreaksValid | includes/class-slot-model.php:144-147 | two updates as written, to one unit and back to three, leave two rows on one position of a valid table |
| Slots.ShrinkGrowTableValid | includes/class-slot-model.php:375-414 | the counterexample's starting table is valid |
| Slots.UpdateSlotUnits | includes/class-slot-model.php:127-152 | `update` with the corrected resize: units are resized only when the layout sets `max_items`; otherwise the table is unchanged |
| Slots.SlotWritesKeepValid | includes/class-slot-model.php:94-152 | creating a slot, and updating it with the corrected resize, keeps the unit table valid |
| Slots.DeleteSlotUnits | includes/class-slot-model.php:160-186 | every row of the slot goes and every other row stays |
| Slots.RenderOf | includes/class-slot-model.php:222-264 | a rendered unit shows its content exactly while it is live |
| Slots.InsertItem | includes/class-slot-model.php:222-264 | inserting into a sorted listing keeps it sorted and a permutation |
| Slots.SortedListingUnique | includes/class-slot-model.php:222-264 | a sorted listing lists no row twice |
| Slots.RenderFromCovers | includes/class-slot-model.php:222-264 | the listing covers every row of the slot |
| Slots.UnitsForRender | includes/class-slot-model.php:222-264 | every row of the slot is rendered once, in key order, with content shown exactly for live sales |
| Validators.UrlValidatorsAgree | includes/frontend/class-ajax.php:1931-1947 | the class's URL check is the global helper's |
| Validators.ContactValidatorsAgreeOnTrimmed | includes/frontend/class-ajax.php:1956-1977 | on input with no blank at either end the class's contact check and the helper agree |
| Validators.ContactValidatorsDifferOnPadding | includes/frontend/class-ajax.php:1956-1977 | any well-formed QQ number with a leading blank passes the helper, which trims, and fails the class's check, which does not |
| MemoryLimit.ParseMemoryLimit | includes/frontend/class-ajax.php:1985-2004 | "", "0" and "-1" mean no limit; a G, M or K suffix scales the number read |
| MemoryLimit.IntValOfNat | includes/frontend/class-ajax.php:1985-2004 | `intval` reads back a rendered natural number |
| MemoryLimit.IntValOfDigits | includes/frontend/class-ajax.php:1985-2004 | `intval` of a string of digits is the number the digits spell |
| MemoryLimit.MegabytesRead | includes/frontend/class-ajax.php:1985-2004 | a limit of n megabytes reads as n mebibytes, in either case of the suffix |
| Ajax.SignatureIgnoresOwnEntry | includes/frontend/class-ajax.php:1798-1819 | the signature does not depend on the signature entry |
| Ajax.Sign | includes/frontend/class-ajax.php:1631-1633 | signing adds only the signature entry |
| Ajax.SignatureRoundTrip | includes/frontend/class-ajax.php:1798-1837 | signed data verifies, and data without a signature never does |
| Ajax.VerifiedIsSigned | includes/frontend/class-ajax.php:1827-1837 | data that verifies is the signed form of its other entries |
| Ajax.FilterPaymentMethodsForAd | includes/frontend/class-ajax.php:921-973 | non-ad orders are untouched; for ad orders the result is a subset that drops balance for guests or when the option is off, and honours the slot's whitelist |
| Ajax.OverrideOf | includes/frontend/class-ajax.php:949-960 | a whitelist that applies is never empty |
| Checks.ParamErrors | includes/frontend/class-ajax.php:1099-1121 | each parameter error is reported exactly when its parameter is out of range |
| Checks.NameErrors | includes/frontend/class-ajax.php:1161-1169 | the website name is accepted exactly when it is non-empty and 2 to 50 characters long |
| Checks.WebsiteErrors | includes/frontend/class-ajax.php:1171-1181 | the website URL is accepted exactly when it is empty, or valid with a host |
| Checks.ImageErrors | includes/frontend/class-ajax.php:1206-1229 | the image is accepted exactly when it is a valid URL that matches its attachment |
| Checks.TextErrors | includes/frontend/class-ajax.php:1230-1311 | the text is accepted exactly when its length is within the slot's limits and its colour is known |
| Checks.DataErrors | includes/frontend/class-ajax.php:1161-1320 | the content is refused exactly when some check fails |
| Reservation.WaitMinutes | includes/frontend/class-ajax.php:1418-1423 | the wait shown is the remaining seconds rounded up to minutes |
| Reservation.LockRefusal | includes/frontend/class-ajax.php:1376-1432 | a sale with a running term is refused as occupied, a running lock as locked, and anything else passes |
| Reservation.LazyExpired | includes/frontend/class-ajax.php:1385-1412 | only a paid unit changes: it becomes expired and loses its order link |
| Reservation.LockContent | includes/frontend/class-ajax.php:1483-1508 | the lock writes all ten content columns from the request |
| Reservation.LockedUnit | includes/frontend/class-ajax.php:1478-1531 | the locked row keeps its position and is pending until the deadline at the quoted price |
| Reservation.Reserve | includes/frontend/class-ajax.php:1348-1576 | the transaction locks the row at the position, or refuses as occupied, locked or mispriced with nothing written |
| Reservation.ReserveKeepsValid | includes/frontend/class-ajax.php:1348-1576 | the reservation keeps the unit table valid |
| Prepare.AdDataOf | includes/frontend/class-ajax.php:1613-1626 | the stored ad data holds exactly the content the request gives |
| Prepare.OrderDataOf | includes/frontend/class-ajax.php:1603-1630 | the order data carries every key but the signature, each with its request value |
| Prepare.OrderToken | includes/frontend/class-ajax.php:1601 | the order token carries the plugin's prefix |
| Prepare.PendingRow | includes/frontend/class-ajax.php:1646-1700 | the ledger row records a pending attempt under its token, with no provider order, for the unit and price locked |
| Prepare.PreCheck | includes/frontend/class-ajax.php:1022-1320 | the request passes exactly when every check before the transaction passes, and the first failing check is reported |
| Prepare.Commit | includes/frontend/class-ajax.php:1579-1700 | the reservation stored expires after the payment window and names the locked unit and quote |
| Prepare.CommitKeepsLedger | includes/frontend/class-ajax.php:1646-1700 | the pending row keeps provider ids unique |
| Prepare.CommitStoresVerifiedOrder | includes/frontend/class-ajax.php:1601-1637 | the stored reservation verifies and names the locked unit and the charged price |
| Prepare.OrderDataNamesPurchase | includes/frontend/class-ajax.php:1603-1630 | the order data names the slot, the position, the locked unit and the total charged |
| Prepare.PrepareOrder | includes/frontend/class-ajax.php:1006-1778 | a failed pre-check is returned with nothing written; otherwise the transaction runs and a successful one is committed |
| Prepare.PrepareCommits | includes/frontend/class-ajax.php:1006-1778 | once the checks pass and the transaction succeeds, the commit is of exactly what the transaction produced, and the unit it names is pending |
| Prepare.ParamRefusalIgnoresUnits | includes/frontend/class-ajax.php:1099-1121 | a parameter refusal does not depend on the unit table |
| Prepare.PrepareKeepsInvariants | includes/frontend/class-ajax.php:1006-1778 | a successful reservation keeps the unit table valid and provider ids unique |
| Prepare.ReserveSucceedsWhenFree | includes/frontend/class-ajax.php:1348-1576 | a free position is always reserved |
| Prepare.ReserveClearsLapsedOrder | includes/frontend/class-ajax.php:1385-1412 | a re-locked paid unit loses its old order link |
| Prepare.LapsedPaidUnitIsRelocked | includes/frontend/class-ajax.php:1376-1412 | for a request that passes the checks at a positive price, a paid unit whose term is over is re-locked, not refused |
| Prepare.ReserveAcceptsWhatSetPendingRefuses | includes/frontend/class-ajax.php:1414-1432 | for a request that passes the checks at a positive price, a lock lapsing exactly now is re-locked here, while `set_pending` refuses it in any case |
| Prepare.SetPendingRefusesLapsedNow | includes/class-unit-model.php:116-159 | `set_pending` refuses an expired row and a lock whose deadline is exactly now |
| Prepare.MissingUnitIsInserted | includes/frontend/class-ajax.php:1434-1555 | for a request that passes the checks at a positive price, a position with no row gets a new pending row |
| OrderSync.RequestOf | includes/class-order-sync.php:723-730 | the request is absent exactly when the order carries none or an empty one |
| OrderSync.AllowedPaymentMethods | includes/class-order-sync.php:865-895 | the order-time methods are theme methods inside the slot's whitelist, without balance for guests or when the option is off |
| OrderSync.AllowedMethodsComplete | includes/class-order-sync.php:865-895 | every theme method no rule excludes is allowed |
| OrderSync.FilterPaymentMethods | includes/class-order-sync.php:811-855 | non-ad orders are untouched; for ad orders a method stays exactly when no rule removes it |
| OrderSync.HookOffersWhatOrderRefuses | includes/class-order-sync.php:811-895 | with the balance option off the hook offers balance while the order-time check refuses it |
| OrderSync.CheckoutListMatchesOrderCheck | includes/class-order-sync.php:865-895 | the checkout list and the order-time check agree on every method |
| OrderSync.TransientKeyOf | includes/class-order-sync.php:99-124 | the posted token is used when usable, else the legacy key |
| OrderSync.RequestFrom | includes/class-order-sync.php:226-245 | the stored request names the slot, unit, position, price and transient |
| OrderSync.FilterOrderData | includes/class-order-sync.php:82-267 | the checks run in order and the first failure is returned; otherwise the order is filled from the stored reservation |
| OrderSync.UnsignedDataIsAccepted | includes/class-order-sync.php:126-145 | data without a signature passes the filter but fails `verify_order_signature` |
| OrderSync.SignedDataPasses | includes/class-order-sync.php:82-267 | a reservation `prepare_order` signed is accepted and fills the order with its unit and total |
| OrderSync.PaidContent | includes/class-order-sync.php:477-501 | every content column is sent, the request's value when set and empty otherwise |
| OrderSync.SnapshotOf | includes/class-order-sync.php:543-551 | the snapshot holds the five buyer columns of the content |
| OrderSync.PaidRecord | includes/class-order-sync.php:521-570 | the paid record carries the provider order, the unit and the price, with paid time now |
| OrderSync.RecordPaid | includes/class-order-sync.php:571-618 | the token's pending rows are updated, else the provider order's rows, else a row is inserted |
| OrderSync.MainSuccess | includes/class-order-sync.php:466-618 | a missing slot or unit, or a failed unit write, changes nothing |
| OrderSync.ProductTarget | includes/class-order-sync.php:337-344 | a position is read exactly when the product id has a colon |
| OrderSync.FallbackRow | includes/class-order-sync.php:404-426 | the inserted row is paid and carries the provider order |
| OrderSync.MarkPaid | includes/class-order-sync.php:427-437 | an existing row becomes paid and keeps its provider order |
| OrderSync.FallbackPay | includes/class-order-sync.php:345-442 | the unit is paid, and the provider order's rows are updated when they exist and a row is inserted otherwise |
| OrderSync.FallbackSuccess | includes/class-order-sync.php:330-458 | a failed unit write changes nothing |
| OrderSync.OnPaymentSuccess | includes/class-order-sync.php:281-652 | a non-ad order and a failed unit write change nothing |
| OrderSync.SuccessTakesMainPath | includes/class-order-sync.php:312-331 | an order that carries a non-empty ad request takes the main path |
| OrderSync.MainPathPaysUnit | includes/class-order-sync.php:503-519 | the named unit is paid with the order's content and term, and other units stay |
| OrderSync.MainSuccessPaysUnit | includes/class-order-sync.php:461-519 | with a slot and a unit named, the unit is paid with all ten content columns of the request and its term, and other units stay |
| OrderSync.SetPaidFullContent | includes/class-unit-model.php:169-224 | `set_paid` given all ten content columns replaces the row's content outright |
| OrderSync.MainPathBlanksCustomerName | includes/class-order-sync.php:477-487 | a main-path payment writes "" as the unit's customer name |
| OrderSync.RecordPaidKeepsUnique | includes/class-order-sync.php:571-618 | the ledger write keeps provider ids unique when the token names at most one pending row |
| OrderSync.MainSuccessKeepsValid | includes/class-order-sync.php:466-618 | a main-path payment keeps the store valid |
| OrderSync.FallbackSuccessKeepsValid | includes/class-order-sync.php:330-458 | a fallback payment keeps the store valid |
| OrderSync.RecordPaidLeavesTrace | includes/class-order-sync.php:571-618 | afterwards no pending row is left under the token and a row carries the provider order |
| OrderSync.MainReplayAddsNoRow | includes/class-order-sync.php:593-603 | a repeated main-path callback adds no ledger row |
| OrderSync.FallbackReplayAddsNoRow | includes/class-order-sync.php:396-437 | a repeated fallback callback for a known provider order adds no ledger row |
| OrderSync.ReplayAddsNoRow | includes/class-order-sync.php:281-652 | a replayed success callback adds no second row unless the order has neither a request nor a provider id |
| OrderSync.FailedUnitWriteWritesNoRow | includes/class-order-sync.php:503-513 | a failed unit write ends the callback with nothing written |
| OrderSync.TouchesOnlyFacts | includes/class-order-sync.php:281-652 | a write that touches only one order's rows gives no other order a row and leaves every non-pending row alone |
| OrderSync.TouchesOnlyKeepsTokens | includes/class-order-sync.php:571-618 | turning pending rows into paid ones keeps at most one pending row per token |
| OrderSync.RecordPaidTouchesOnly | includes/class-order-sync.php:571-618 | for an order no row carries yet, the ledger write turns the token's pending rows, or a new row, into paid rows of that order |
| OrderSync.AppendTouchesOnly | includes/class-order-sync.php:404-426 | an inserted paid row touches only its own order |
| OrderSync.MainSuccessOnUnrecordedOrder | includes/class-order-sync.php:466-618 | on an order no row carries yet, the main path keeps the store valid, writes only that order's rows, and leaves a row for it when it names a slot and a unit |
| OrderSync.FallbackSuccessOnUnrecordedOrder | includes/class-order-sync.php:330-458 | on an order no row carries yet, the fallback keeps the store valid and only appends a paid row of that order |
| OrderSync.SuccessOnUnrecordedOrder | includes/class-order-sync.php:281-652 | on an order no row carries yet, the callback keeps the store valid and one pending row per token, writes only that order's rows, and a main-path order with a successful unit write ends with a row |
| OrderSync.Attach | includes/class-order-sync.php:927-940 | the created callback writes the provider order onto a row and keeps its status |
| OrderSync.LatestPickable | includes/class-order-sync.php:942-955 | the row picked is the newest pending row of the unit and slot |
| OrderSync.NewPendingRow | includes/class-order-sync.php:957-984 | the inserted row is pending, carries the provider order and has no token |
| OrderSync.OnOrderCreatedAsWritten | includes/class-order-sync.php:902-991 | non-ad orders change nothing |
| OrderSync.OnOrderCreated | includes/class-order-sync.php:902-991 | non-ad orders change nothing, and an order the ledger already records is left alone |
| OrderSync.OrderCreatedKeepsUnique | includes/class-order-sync.php:902-991 | the corrected callback never gives a provider order a second row |
| OrderSync.OrderCreatedIdempotent | includes/class-order-sync.php:902-991 | a repeated created event changes nothing the second time |
| OrderSync.OrderCreatedAsWrittenDuplicates | includes/class-order-sync.php:934-984 | the written callback gives one provider order two rows when the event arrives twice |
| OrderSync.Refund | includes/class-order-sync.php:761-774 | exactly the rows carrying the provider id become refunded |
| OrderSync.OnOrderClosedAsWritten | includes/class-order-sync.php:702-798 | a non-ad order, or one without a request, changes nothing |
| OrderSync.OnOrderClosed | includes/class-order-sync.php:702-798 | the corrected callback also changes nothing without a request |
| OrderSync.OrderClosedReleasesOnlyOwnUnit | includes/class-order-sync.php:750-781 | only the named unit changes, and a paid unit is released only when sold to the closed order |
| OrderSync.OrderClosedAsWrittenReleasesOthersUnit | includes/class-order-sync.php:757-781 | the written callback releases a unit sold to another order |
| Reconcile.SweepAge | includes/class-order-reconcile.php:78-79 | a pending row ages the payment window plus ten minutes, at least 10 |
| Reconcile.StalePending | includes/class-order-reconcile.php:80 | the rows chosen are exactly the pending ones created before the cutoff |
| Reconcile.Sweep | includes/class-order-reconcile.php:80 | stale pending rows time out and every other row stays |
| Reconcile.Cutoff | includes/class-order-reconcile.php:78-80 | the corrected cutoff is in local time, at least 10 minutes before now |
| Reconcile.SweepFollowsTheLock | includes/class-order-reconcile.php:77-80 | the corrected sweep times out a pending row exactly when the lock `prepare_order` set with the same window lapsed more than ten minutes ago |
| Reconcile.SweepSparesFreshRows | includes/class-order-reconcile.php:77-80 | a row younger than the window plus slack is never timed out, and an older pending row always is |
| Reconcile.SweepAsWrittenTimesOutFreshRow | includes/class-order-reconcile.php:79-80 | west of UTC the written cutoff times out a row created this second |
| Reconcile.SweepKeepsInvariants | includes/class-order-reconcile.php:80 | the sweep keeps the ledger invariants |
| Reconcile.MissingDesc | includes/class-order-reconcile.php:87-95 | the candidates are exactly the missing paid ad orders, newest first |
| Reconcile.Take | includes/class-order-reconcile.php:87-95 | the limit keeps a prefix of the length allowed |
| Reconcile.AllowedKeepsOrder | includes/class-order-reconcile.php:97-108 | the filter keeps the newest-first order |
| Reconcile.ReplayedAsWritten | includes/class-order-reconcile.php:87-108 | the written selection replays, newest first, at most `limit` orders, each a missing paid ad order that is not denied |
| Reconcile.Replayed | includes/class-order-reconcile.php:87-108 | the corrected selection replays, newest first, only missing paid ad orders that are not denied |
| Reconcile.ReplayedIsNewestAllowed | includes/class-order-reconcile.php:87-108 | the corrected selection is the newest missing orders not denied, up to the limit |
| Reconcile.TakeOfDescending | includes/class-order-reconcile.php:87-95 | a limit on a newest-first list leaves out only orders older than all it keeps, and only once the limit is reached |
| Reconcile.ReplayedAsWrittenStarves | includes/class-order-reconcile.php:87-108 | denied orders can use up the written limit, so an allowed order is never replayed |
| Reconcile.ReplayAll | includes/class-order-reconcile.php:121-127 | replays keep the set of unit rows and only add ledger rows |
| Reconcile.ReplayAllKeepsValid | includes/class-order-reconcile.php:121-132 | replaying missing orders newest first keeps the store valid and one pending row per token, gives no other order a row, leaves non-pending rows alone, and leaves a row for each main-path order whose unit write succeeds |
| Reconcile.RestIsOlder | includes/class-order-reconcile.php:91 | in a newest-first list every later order is older than the first |
| Reconcile.ReplayStepCombines | includes/class-order-reconcile.php:123-132 | one replay followed by the rest gives the facts for the whole list |
| Reconcile.ReplayIgnoresOtherOrders | includes/class-order-reconcile.php:121-127 | replaying non-ad orders changes nothing |
| Reconcile.RunAsWritten | includes/class-order-reconcile.php:72-133 | the written job keeps the ledger ids below the next id |
| Reconcile.RunAsWrittenKeepsValid | includes/class-order-reconcile.php:72-133 | the written job keeps the store valid, never gives a denied order a row, and leaves a row for every replayed main-path order whose unit write succeeds |
| Reconcile.Run | includes/class-order-reconcile.php:72-133 | the corrected job keeps the unit rows and only adds ledger rows |
| Reconcile.RunKeepsValid | includes/class-order-reconcile.php:72-133 | the corrected job keeps the store valid, never gives a denied order a row, and leaves a row for every replayed main-path order whose unit write succeeds |
| Reconcile.SweepKeepsStore | includes/class-order-reconcile.php:80 | the sweep keeps the store valid and one pending row per token, and moves no row between orders |
| Reconcile.JobKeepsValid | includes/class-order-reconcile.php:72-133 | a sweep and a replay of missing, undenied orders keeps the store valid and gives denied orders no row |
| Reconcile.SweepKeepsCandidates | includes/class-order-reconcile.php:77-108 | the sweep does not change which orders are replayed, by either selection |
| Reconcile.MaybeRunLightweight | includes/class-order-reconcile.php:55-65 | a user without the capability changes nothing |
| Reconcile.LightweightRunIsThrottled | includes/class-order-reconcile.php:55-65 | a second page load within 120 seconds does nothing, and a run replays at most 10 orders |
| Expire.DueIds | includes/cron/class-expire-runner.php:34-41 | the ids chosen are exactly the paid rows whose term is over |
| Expire.ExpiredTable | includes/cron/class-expire-runner.php:34-50 | step 1's intended result: every due row expired and nothing else touched |
| Expire.ExpirePaid | includes/cron/class-expire-runner.php:34-50 | the loop computes exactly that result and counts every due row |
| Expire.ExpireIdempotent | includes/cron/class-expire-runner.php:34-50 | a second step 1 at the same instant expires nothing |
| Expire.ExpireKeepsValid | includes/cron/class-expire-runner.php:34-50 | step 1 keeps the unit table valid |
| Expire.NoticeDays | includes/cron/class-expire-runner.php:83 | the notice window is at least one day and at least the setting |
| Expire.MarkerExpiry | includes/cron/class-expire-runner.php:158-161 | the marker outlives the end of the term by a day |
| Expire.SendExpiryNotices | includes/cron/class-expire-runner.php:70-165 | nothing is sent when notices are off; otherwise each expiring unit with an email and no live marker is mailed once, and marked only on success |
| Expire.NoticeSentOnce | includes/cron/class-expire-runner.php:104-162 | a unit is mailed at most once per term |
| Expire.Run | includes/cron/class-expire-runner.php:24-65 | the job expires due sales, then releases lapsed locks, and counts both |
| Expire.RunKeepsValid | includes/cron/class-expire-runner.php:24-65 | the job keeps the unit table valid and touches only due and lapsed rows |
| Admin.DashboardParams | includes/admin/class-admin-rest.php:398-402 | the counts are clamped to 1..20 and to at least one day, and values in range are kept |
| Admin.WithStatus | includes/admin/class-admin-rest.php:1610-1634 | the ids are exactly the slot's rows stored with that status |
| Admin.ShownAs | includes/admin/class-admin-rest.php:1610-1634 | the ids are exactly the slot's rows displayed with that status |
| Admin.ShownBuckets | includes/admin/class-admin-rest.php:1610-1634 | the displayed paid bucket is the stored paid rows minus the lapsed ones, which show as expired |
| Admin.StatusPartition | includes/admin/class-admin-rest.php:1610-1634 | the stored statuses partition the slot's rows |
| Admin.SlotUnitStats | includes/admin/class-admin-rest.php:1597-1637 | each bucket counts exactly the rows displayed with its status, and the buckets add up to the slot's rows |
| Admin.KeepBuyable | includes/admin/class-admin-rest.php:1012-1030 | the buyable entries stay, in order |
| Admin.AvailableUnits | includes/admin/class-admin-rest.php:1000-1035 | slot 0 is refused; otherwise exactly the buyable positions are listed, in key order |
| Admin.BuyableIffAvailable | includes/admin/class-admin-rest.php:1012-1030 | a unit is listed exactly when it is available |
| Admin.BuyableCanBeTaken | includes/admin/class-admin-rest.php:1000-1035 | a listed position resolves to its row and can be reserved or sold |
| Admin.CreateAd | includes/admin/class-admin-rest.php:846-883 | slot 0, a missing position and an occupied unit are refused; otherwise the unit is sold for at least one month |
| Admin.CreateAdKeepsValid | includes/admin/class-admin-rest.php:846-883 | a manual sale keeps the table valid and never lands on an occupied row |
| Admin.BuildPatch | includes/admin/class-admin-rest.php:901-925 | the patch carries the given columns, and a new term exactly when a duration is given |
| Admin.Applied | includes/class-unit-model.php:89-106 | a patch keeps the row's position, status, order and price |
| Admin.UpdateAd | includes/admin/class-admin-rest.php:888-946 | id 0, a missing unit, an end not after the start and an empty request are refused |
| Admin.DurationOnlyUpdateIsAccepted | includes/admin/class-admin-rest.php:907-933 | changing only the duration is never refused |
| Admin.UpdateAdKeepsValid | includes/admin/class-admin-rest.php:888-946 | an edit keeps the table valid |
| Admin.LatestPaid | includes/admin/class-admin-rest.php:973-978 | the order found is the unit's most recent paid order |
| Admin.TakedownAd | includes/admin/class-admin-rest.php:951-995 | id 0, a missing unit and a unit not stored as paid are refused; otherwise the unit is cleared and its latest paid order taken down |
| Admin.TakedownAdKeepsInvariants | includes/admin/class-admin-rest.php:951-995 | a takedown keeps the unit table valid and provider ids unique |
| Admin.ValidateDisplayLayout | includes/admin/class-admin-rest.php:1782-1816 | a non-array, a non-positive `max_items` or a `per_row` outside 1..8 is refused, in that order |
| Admin.AcceptedLayoutProvisionsUnits | includes/admin/class-admin-rest.php:1782-1816 | an accepted layout gives a new slot a sellable position 0; a resize to it keeps position 0 when the slot had it, and provisions it when the slot grows |
| Widgets.WidgetId | includes/class-widget-manager.php:468-470 | a widget id carries the widget base prefix |
| Widgets.RemoveAtDistinct | includes/class-widget-manager.php:264-270 | removing from a list without duplicates removes the entry completely |
| Widgets.MountWidget | includes/class-widget-manager.php:175-242 | an unregistered sidebar is refused; a failed save leaves the store as it was |
| Widgets.UnmountWidget | includes/class-widget-manager.php:251-296 | only the sidebar named changes, and instances stay |
| Widgets.UnmountUndoesMount | includes/class-widget-manager.php:175-296 | unmounting right after mounting restores the sidebar |
| Widgets.MountIdempotent | includes/class-widget-manager.php:197-202 | mounting twice is mounting once |
| Widgets.MountKeepsDistinct | includes/class-widget-manager.php:197-217 | a mount keeps every sidebar free of duplicates |
| Widgets.UnmountKeepsDistinct | includes/class-widget-manager.php:264-286 | a saved unmount removes the widget completely and keeps lists distinct |
| Widgets.MountedSidebars | includes/class-widget-manager.php:339-356 | exactly the active sidebars listing the widget |
| Widgets.CleanupOrphanedInstances | includes/class-widget-manager.php:438-448 | the instance is kept exactly while the widget is mounted somewhere |
| Widgets.UnmountEach | includes/class-widget-manager.php:125-136 | the unmount loop touches only the sidebars listed |
| Widgets.MountEach | includes/class-widget-manager.php:138-146 | a successful mount loop mounts the widget in every sidebar listed |
| Widgets.Relocate | includes/class-widget-manager.php:124-149 | a finished move mounts into every listed sidebar, leaves unlisted ones alone and keeps an instance only while the widget is mounted somewhere |
| Widgets.AutoMount | includes/class-widget-manager.php:84-166 | an error rolls back; otherwise newly bound sidebars are mounted, dropped ones unmounted and the others untouched |
| Widgets.AutoMountSucceeds | includes/class-widget-manager.php:84-166 | with no write failure and registered sidebars the mount succeeds |

## Left out

- Rendering, HTML and JavaScript output, image upload and resizing, the payment form, shortcodes, the admin menu and assets are outside the model's scope.
- The dashboard's reporting queries and the admin debug routes are not modelled.
- I/O is modelled by parameters. A failed database write is a boolean. `filter_var`, `is_email`, the HMAC, `parse_url`, the attachment lookup and `strtotime` are function parameters. `time()` and `current_time('mysql')` are the `Clock`.
- Concurrency is not modelled. Each callback and each transaction is one atomic step, which is what the row lock in `prepare_order` provides.
- Exceptions are not modelled: in the reconciliation loop, inside `auto_mount`, and from the database.
- The transient time-to-live and the mail body are not modelled.
- `sanitize_text_field`, `esc_url_raw` and `sanitize_textarea_field` are identity in the model, or a function parameter.
- `normalize_order_param` is not modelled: orders arrive already normalised.
- Prices are integer cents. PHP's float arithmetic and `round(…, 2)` are not modelled.
- The deny-list holds integers: a string entry never matches under the strict `in_array`, so it is left out.
- `expires_at` in the stored reservation is modelled as a timestamp, not a formatted date.
- `price_detail` is not in the snapshot model.
- Non-array `ad_data` reads as empty. Non-array sidebar entries and non-array bindings are not modelled.
- `unmount_all`, `is_mounted` and `get_stats` of the widget manager are not modelled.
- A standalone `mount_widget` whose instance write fails calls `rollback` with a possibly stale backup: not modelled. Inside `auto_mount` the net effect is a restore to the backup, which is modelled. A failing write inside `rollback` is not modelled.
- Sidebar order in `get_mounted_sidebars` is not modelled: the result is a set.
- The orphan clean-up's delete is modelled as succeeding: the code ignores its result.
- `create_ad`'s server error when a class is missing is not modelled.
- `prepare_order`'s database errors inside the transaction are not modelled: they roll back like any refusal.
- A failed ledger insert after the commit is not modelled: the code only logs it.
- Helpers.ValidateUrl: `filter_var` is a parameter, so the contract says only what the scheme test adds.
- Admin.UpdateAd: the `is_numeric` test on `ends_at` is a two-way choice (number or text). A NULL column value is not modelled.
- Admin.CreateAd: the content columns are taken as given; WordPress's sanitising is identity.
- Expire.SendExpiryNotices: the mail body and the slot title lookup are left out.
- OrderSync.OnOrderClosed: the pending branch still releases without an ownership check, as the code does.
- Reconcile.ReplayAllKeepsValid: a replayed order on the fallback path is not promised a row, because whether it finds its unit depends on the unit table at that step. The lemmas also take as given that each provider row hands the callback an order carrying the row's own id.
- Helpers.OrderTimeout: a string setting is compared with 0 by the number it starts with, as PHP 7 does. PHP 8 compares a non-numeric string such as "0abc" as text, and the model does not follow that. A float setting is not modelled, since the value model has no floats.
- Expire.MarkerExpiry: the code reads `time()` again when it sets the marker; the model uses the callback's single clock reading.
- Ledger.QueryFilters: the slot condition is not promised to be positive. A non-empty `slot_id` whose `absint` is 0, such as "abc", filters on slot 0, as the list and count queries do.
- OrderSync.Refund: with no provider id the code updates rows whose provider id is 0, and the model does the same.

### Where the code and its design notes part ways (the model follows the code)

- `prepare_order` accepts a unit whose status is `expired`, and a lock whose deadline equals now. `set_pending` refuses both (`Prepare.ReserveAcceptsWhatSetPendingRefuses`).
- `prepare_order` inserts a unit row when the position has none (`Prepare.MissingUnitIsInserted`).
- `set_paid` re-stamps `starts_at`. Units that expire, or are re-locked, keep their old order link unless `prepare_order`'s lazy expiry clears it.
- `filter_order_data` accepts data without a signature (`OrderSync.UnsignedDataIsAccepted`).
- `Zibll_Ad_Order_Model::takedown` checks the displayed status; admin `takedown_ad` checks the stored `paid` status.
- The deny-list is saved before the order row is deleted.
- A main-path payment writes "" as the unit's customer name (`OrderSync.MainPathBlanksCustomerName`).
- The second ledger step of a payment turns every row of the provider order to paid, refunded rows included.
- A package priced 0 is accepted (`Pricing.ZeroPricedPackageAccepted`). Only a missing price or no match is refused.
- The class's contact check does not trim, while the global helper does (`Validators.ContactValidatorsDifferOnPadding`).
- The guest check reads its option through `zibll_ad_get_option`, while the purchase pause reads the merged settings of `Zibll_Ad_Settings::get_all`.
- The colour surcharge is computed for image slots too.
- The payment-method hook ignores `allow_balance_payment` (`OrderSync.HookOffersWhatOrderRefuses`).
- The row `on_order_created` inserts uses the website name as the customer name.
- The fallback payment path with no provider id always inserts a ledger row.
- The expiry notices take unit ids in ascending order.
- `update_ad` may edit units that are not paid.

## Findings

| source | as written | input that shows it | evidently intended | confidence | as-written member | corrected member |
|---|---|---|---|---|---|---|
| includes/class-slot-model.php:375-414 | growing a slot inserts keys from the current row count up to `max_items` | a slot of three units with key 2 paid is shrunk to one: key 1 is deleted and key 2 stays, so the count is 2. Growing back to three inserts a second row for key 2 | insert exactly the keys below `max_items` the slot lacks | high, not executed | Slots.AdjustUnitsAsWritten, Slots.AdjustUnitsAsWrittenDuplicatesKey, Slots.UpdateSlotUnitsAsWritten, Slots.UpdateAsWrittenBreaksValid | Slots.AdjustUnits, Slots.AdjustUnitsKeepsValid, Slots.UpdateSlotUnits, Slots.SlotWritesKeepValid |
| includes/class-order-sync.php:902-991 | each step of `on_order_created` moves on when the UPDATE reports no affected rows, and MySQL counts only changed rows | a pending row with token "t" for unit 7 in slot 3, and the created event for order 5 arriving twice (the callback is hooked under two names): the second event changes nothing, so a second row carrying order 5 is inserted | go by the rows matched, and leave an order the ledger already records alone | medium, not executed | OrderSync.OnOrderCreatedAsWritten, OrderSync.OrderCreatedAsWrittenDuplicates | OrderSync.OnOrderCreated, OrderSync.OrderCreatedKeepsUnique |
| includes/class-order-reconcile.php:87-108 | the SQL `LIMIT` is applied before the deny-list filter | orders 5 and 3 paid and missing from the ledger, 5 on the deny-list, a limit of 1: nothing is replayed, on every run | filter the denied orders before limiting | high, not executed | Reconcile.ReplayedAsWritten, Reconcile.ReplayedAsWrittenStarves | Reconcile.Replayed, Reconcile.ReplayedIsNewestAllowed |
| includes/class-order-sync.php:750-781 | a closed order whose request names a paid unit releases that unit and refunds its rows, whoever bought it | a closed order whose request names unit 7, which is paid by another order | release only a unit sold to the closed order | medium, not executed | OrderSync.OnOrderClosedAsWritten, OrderSync.OrderClosedAsWrittenReleasesOthersUnit | OrderSync.OnOrderClosed, OrderSync.OrderClosedReleasesOnlyOwnUnit |
| includes/class-order-reconcile.php:78-80 | the timeout cutoff is formatted with `gmdate` but compared with `created_at`, which is local time | a site five hours west of UTC with a 30-minute window: a pending row created this second is older than the UTC cutoff and is timed out | compute the cutoff in local time | high, not executed | Reconcile.CutoffAsWritten, Reconcile.SweepAsWrittenTimesOutFreshRow | Reconcile.Cutoff, Reconcile.SweepSparesFreshRows |
