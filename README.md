# Webshop core in Dafny

This project models the bookkeeping core of a small ASP.NET webshop. Prices,
texts and statuses are Hungarian. The webshop's store is modelled as one
object, `Data.AppDb`, whose tables are sequences of row values that the
services reassign. Each service that works on the store is a class holding
that object. Each of its methods is proved against a pure function of the old
tables, and the lemmas beside those functions state what the code promises.

The modules follow the source files:

- `Cart` (Services/CartService.cs): the shopping cart.
  - A list of (product, quantity) lines.
  - Add checks the per-order cap first, then strict stock, and rejects.
  - Update clamps instead of rejecting.
  - Remove, clear, load and the computed total.
  - `OnChange` is counted by `changeEvents`.
- `OrderCleanup` (Services/OrderCleanupService.cs): one sweep of the expired-order reaper.
  - Unpaid card orders older than 60 minutes get their item quantities credited back to stock.
  - Each credit writes one stock-log row holding the new stock.
  - The order is cancelled and marked reversed.
- `InventoryMonitor` (Services/InventoryMonitorService.cs): one sweep of the low-stock monitor, with its two-pass latch on `IsLowStockAlertSent`.
- `EmailQueues` (Services/EmailQueue.cs): the FIFO of mail jobs and its counting signal.
- `EmailWorkers` (Services/EmailWorker.cs): the worker loop.
  - Take the head job and run it.
  - On failure, put it back at the tail.
- `Orders` (Models/Order.cs): the order record, its two status enums, `IsPaid` and `RecalculateTotal`.
- `Checkout` (Models/OrderMetadata.cs): the checkout form.
  - The field attributes (required, patterns, minimum length).
  - Its own `Validate` rules for a separate billing address and an account password.
- `Sitemap` (Controllers/SitemapController.cs):
  - `GenerateSlug`, one function per regex step;
  - the URL entries of the sitemap.
- `Newsletter` (Services/NewsletterSevice.cs): guest subscription, unsubscription, and the distinct union of subscribed users and active guests.
- `Settings` (Services/SettingsService.cs): the key/value settings table, its in-memory cache, and upsert.
- `Emails` (Services/EmailService.cs): the computing parts of the mail service.
  - The base URL.
  - The tracking and review links.
  - The bank-transfer block.
  - The rows and early return of the low-stock alert.
- `Entities`, `Data`, `Text` and `Wrappers`: the rows, the store, and character and number formatting helpers.

Conventions:

- Instants are whole seconds (`int`).
- `decimal` is `real`.
- `int` is unbounded.
- Strings are `seq<char>`.
- The clock, the mail transport, the alert outcome, the configuration and `decimal.TryParse` are parameters.

Two .NET behaviours are modelled as the framework defines them, not as a reader might assume:

- `Regex.IsMatch(s, "^[0-9]{4}$")` also matches four digits followed by a final line feed, because `$` matches before a final `\n`. A `[RegularExpression]` attribute needs the whole value to match.
- A `[RegularExpression]` attribute accepts the empty value. `[Required]` refuses a blank one.

## Model

| member | source | states |
|---|---|---|
| Cart.FindLine | Services/CartService.cs:28 | the first line carrying the product id, no earlier one carries it, and None exactly when no line does |
| Cart.AddCheck | Services/CartService.cs:28-50 | the add is accepted exactly when in-cart + quantity is within the cap (only a cap above zero counts) and, under strict control, within the stock; the cap is checked first and reports the cap and the in-cart amount; when the cap passes and strict stock fails the result is InsufficientStock carrying the stock |
| Cart.CartService.constructor | Services/CartService.cs:8-11 | a new cart has no lines and no change events |
| Cart.CartService.LoadItems | Services/CartService.cs:14-22 | the lines are replaced and OnChange raised only when a list is given; otherwise nothing changes |
| Cart.CartService.AddToCart | Services/CartService.cs:25-67 | returns the error of the checks; on an error or a quantity <= 0 the cart and event count are unchanged; otherwise the lines become AddLines and OnChange fires once |
| Cart.CartService.UpdateQuantity | Services/CartService.cs:70-102 | the lines become UpdateLines (clamped quantity, removal at <= 0); OnChange fires once exactly when the product was in the cart |
| Cart.CartService.RemoveItem | Services/CartService.cs:105-114 | only the first line of that product is removed, the rest keep their order; an absent id changes nothing and raises no event |
| Cart.CartService.Clear | Services/CartService.cs:117-122 | the cart is empty and OnChange fired once |
| Cart.CartService.TotalPrice | Services/CartService.cs:125 | computed from the current lines; an empty cart totals zero (sum laws in LinesTotalAppend and AddLinesTotal) |
| Cart.AddRejectsAboveCeiling | Services/CartService.cs:33-50 | an add is rejected exactly when in-cart + quantity exceeds the smaller of the positive cap and the strict stock |
| Cart.AddLinesInCart | Services/CartService.cs:56-63 | after an accepted add the product's in-cart quantity is old + quantity and every other product's is unchanged |
| Cart.AddLinesShape | Services/CartService.cs:56-63 | an existing line grows in place, otherwise exactly one line is appended at the end; other lines are unchanged; one line per product is preserved |
| Cart.LinesTotalAppend | Services/CartService.cs:125 | the total of two lists of lines is the sum of their totals |
| Cart.LinesTotalUpdate | Services/CartService.cs:125 | replacing one line changes the total by the difference of the two line prices |
| Cart.AddLinesTotal | Services/CartService.cs:56-63 | an accepted add raises the total by price × quantity, with the price of the existing line's product snapshot when there is one |
| Cart.ClampIsMinimum | Services/CartService.cs:79-88 | the clamped quantity is at most the request, the stock under strict control and any cap, and equals one of them |
| Cart.RemoveLineKeepsOthers | Services/CartService.cs:105-112 | removing one product leaves every other product's in-cart quantity as it was |
| Cart.RemoveLineRemovesProduct | Services/CartService.cs:105-112 | with one line per product, removal drops exactly that product's line (length shrinks by one exactly when it was there) and keeps one line per product |
| Cart.UpdateLinesEffect | Services/CartService.cs:70-100 | an absent id changes nothing; otherwise the product's quantity becomes the clamped value, or 0 (line removed) when that is <= 0; other products are unchanged; one line per product is kept |
| Cart.ZeroCapAsymmetry | Services/CartService.cs:33-90 | with a cap of 0 and no strict control, add accepts any quantity while update clamps to 0 and removes the line |
| Cart.AddLines | Services/CartService.cs:56-63 | the accepted add: grow the product's line or append one; its properties are AddLinesInCart, AddLinesShape and AddLinesTotal |
| Cart.UpdateLines | Services/CartService.cs:72-95 | the clamped update or removal of the product's line; its properties are UpdateLinesEffect and ZeroCapAsymmetry |
| Cart.RemoveLine | Services/CartService.cs:107-110 | removal of the first line of the product; its properties are RemoveLineKeepsOthers and RemoveLineRemovesProduct |
| Cart.ClampQuantity | Services/CartService.cs:79-88 | the request capped by strict stock, then by a present cap; its property is ClampIsMinimum |
| Cart.LinesTotal | Services/CartService.cs:125 | Σ product price × quantity over the lines; its laws are LinesTotalAppend, LinesTotalUpdate and AddLinesTotal |
| Entities.FindProduct | Services/OrderCleanupService.cs:62 | the first product with the given key, None for a null key or a missing product |
| Entities.FindProductByKey | Services/OrderCleanupService.cs:62 | with unique ids, looking up a product's own id finds that product |
| OrderCleanup.SweepOrdersCancels | Services/OrderCleanupService.cs:43-81 | exactly the expired orders (card, due, older than 60 minutes; status not consulted) become cancelled and reversed, changing nothing else; no order is left expired |
| OrderCleanup.IsExpired | Services/OrderCleanupService.cs:43-50 | card payment, still due, ordered before now minus 60 minutes; SweepOrdersCancels and SweepIdempotent use it |
| OrderCleanup.SweepOrders | Services/OrderCleanupService.cs:46-81 | the orders after a sweep; its property is SweepOrdersCancels |
| OrderCleanup.ReversalReason | Services/OrderCleanupService.cs:72 | the reversal text naming the order id; its property is ReversalReasonInjective |
| OrderCleanup.CreditItem | Services/OrderCleanupService.cs:62-75 | one credit; its properties are CreditItemRaises, CreditItemAudited, CreditItemAppends and CreditItemTracks |
| OrderCleanup.SweepLedger | Services/OrderCleanupService.cs:57-82 | the products and log after a sweep; its properties are SweepCreditsStock, SweepStockLog, SweepLogSums, SweepResultStock and SweepAuditTrailExact |
| OrderCleanup.OrderCleanupService.CleanupOrders | Services/OrderCleanupService.cs:40-87 | the orders, products and stock log become the sweep's; with no expired order nothing is written; the other tables are untouched |
| OrderCleanup.CreditOrder | Services/OrderCleanupService.cs:60-76 | the inner loop credits the items of one order first to last, as CreditItems |
| OrderCleanup.NoExpiredLeavesLedger | Services/OrderCleanupService.cs:53 | with no expired order the sweep changes neither orders nor products nor the log |
| OrderCleanup.SweepIdempotent | Services/OrderCleanupService.cs:46-79 | a second sweep with the same clock changes nothing, because cancelled orders are no longer due |
| OrderCleanup.CreditItemRaises | Services/OrderCleanupService.cs:62-65 | one item raises only its own product's stock, by its quantity; a missing product changes nothing |
| OrderCleanup.CreditItemsRaise | Services/OrderCleanupService.cs:60-76 | an order's items raise each product's stock by the sum of the quantities referencing it |
| OrderCleanup.SweepCreditsStock | Services/OrderCleanupService.cs:57-82 | each product's stock rises by exactly the total quantity of the expired items referencing it; unreferenced products are unchanged |
| OrderCleanup.CreditItemAudited | Services/OrderCleanupService.cs:62-74 | a credit keeps the audit invariant: the log only grows, keys are kept, and every product is untouched or its last log row records its current stock |
| OrderCleanup.CreditItemsAudited | Services/OrderCleanupService.cs:60-76 | the inner loop keeps the audit invariant |
| OrderCleanup.SweepAuditedFrom | Services/OrderCleanupService.cs:57-82 | the outer loop keeps the audit invariant |
| OrderCleanup.SweepAuditTrailExact | Services/OrderCleanupService.cs:57-82 | with unique product ids, a sweep only appends to the log, and the last row about every changed product records its saved stock (every row, without that requirement, in SweepResultStock) |
| OrderCleanup.CreditItemAppends | Services/OrderCleanupService.cs:62-74 | a credit keeps the product keys and the old log and appends exactly one row when the product exists (none otherwise): its product, the quantity, the reversal reason and the sweep's time |
| OrderCleanup.CreditItemsAppend | Services/OrderCleanupService.cs:60-76 | the inner loop appends one such row per item whose product exists, in item order |
| OrderCleanup.SweepAppends | Services/OrderCleanupService.cs:57-82 | the outer loop appends the rows of every expired order, in table order |
| OrderCleanup.SweepStockLog | Services/OrderCleanupService.cs:57-76 | the old log is kept and exactly one row is appended per item of an expired order whose product exists, in table and item order; each row names the item's product and carries its quantity, the order's reversal reason and the sweep's time |
| OrderCleanup.SweepLogSums | Services/OrderCleanupService.cs:62-72 | for every existing product the new rows' changes add up to the expired quantity referencing it, which is what its stock rose by |
| OrderCleanup.CreditItemTracks | Services/OrderCleanupService.cs:62-71 | a credit raises the product's stock by what it logs and records the stock just written as the row's result |
| OrderCleanup.SweepResultStock | Services/OrderCleanupService.cs:62-72 | every appended row records as its result the product's stock before the sweep plus all changes logged for it up to and including that row: the stock just written |
| OrderCleanup.ReversalReasonInjective | Services/OrderCleanupService.cs:72 | different orders get different reversal reasons |
| InventoryMonitor.CriticalProducts | Services/InventoryMonitorService.cs:48-50 | pass 1 selects exactly the active, unflagged products at or below their threshold |
| InventoryMonitor.IsCritical | Services/InventoryMonitorService.cs:49 | active, at or below threshold and not yet flagged; CriticalProducts and SweepFollowsLatchRule state its use |
| InventoryMonitor.CriticalProductsAppend | Services/InventoryMonitorService.cs:48-50 | the selection distributes over concatenation, so table order is kept |
| InventoryMonitor.CriticalProductsSingle | Services/InventoryMonitorService.cs:48-50 | a single product is selected exactly when it is critical, once |
| InventoryMonitor.MarkAlerted | Services/InventoryMonitorService.cs:63-66 | pass 2 flags the selected products after a successful alert; its property is SweepFollowsLatchRule |
| InventoryMonitor.ClearRestocked | Services/InventoryMonitorService.cs:73-82 | pass 3 clears the flag of products back above threshold; its property is SweepReleasesOnlyRestocked |
| InventoryMonitor.Sweep | Services/InventoryMonitorService.cs:58-85 | the products after one sweep; its properties are SweepFollowsLatchRule, SweepReleasesOnlyRestocked, SecondSweepSilent and FailedSweepRetries |
| InventoryMonitor.InventoryMonitorService.CheckInventory | Services/InventoryMonitorService.cs:43-86 | one alert call exactly when the selection is non-empty, carrying one row per selected product in order; a message exactly when the alert is called and an admin address is set, sent to that address with the fixed subject; sent exactly when the message is delivered; products become Sweep(old, sent); no other table changes |
| InventoryMonitor.SweepFollowsLatchRule | Services/InventoryMonitorService.cs:58-82 | after a sweep each product differs only in its flag, which is set exactly when it is at or below threshold and was flagged or was alerted successfully |
| InventoryMonitor.SweepReleasesOnlyRestocked | Services/InventoryMonitorService.cs:73-82 | no product above threshold stays flagged, and a flagged product at or below threshold keeps its flag |
| InventoryMonitor.SecondSweepSilent | Services/InventoryMonitorService.cs:48-69 | after a successful sweep an immediate second sweep selects nothing, so it sends no alert |
| InventoryMonitor.NoneCriticalSelectsNothing | Services/InventoryMonitorService.cs:48-52 | when no product is critical the selection is empty |
| InventoryMonitor.FailedSweepRetries | Services/InventoryMonitorService.cs:58-69 | after a failed alert the next sweep selects exactly the same products again |
| EmailQueues.EmailQueue.constructor | Services/EmailQueue.cs:7-8 | a new queue is empty with a zero signal |
| EmailQueues.EmailQueue.QueueEmail | Services/EmailQueue.cs:10-14 | the job is appended at the tail and the signal raised by one, with no precondition; signal == length is kept |
| EmailQueues.EmailQueue.Dequeue | Services/EmailQueue.cs:16-21 | returns and removes the head and lowers the signal by one; a cancelled wait changes nothing and returns no job |
| EmailQueues.DrainInOrder | Services/EmailQueue.cs:7-21 | jobs come out in the order they were queued |
| EmailWorkers.EmailWorker.constructor | Services/EmailWorker.cs:8-12 | the worker holds the shared queue |
| EmailWorkers.EmailWorker.Step | Services/EmailWorker.cs:16-28 | one iteration runs the head job once; on failure the same job goes back at the tail; a cancelled wait changes nothing |
| EmailWorkers.EmailWorker.RunSteps | Services/EmailWorker.cs:14-30 | the loop runs the jobs, delivers and leaves queued exactly what Schedule says |
| EmailWorkers.RunWorker | Services/EmailWorker.cs:14-30 | queuing the jobs and running the worker gives Schedule of the jobs |
| EmailWorkers.RequeueConserves | Services/EmailWorker.cs:21-27 | one step keeps every job: delivered or still queued |
| EmailWorkers.ScheduleConserves | Services/EmailWorker.cs:16-29 | no job is ever lost: delivered + remaining is the queued multiset |
| EmailWorkers.ScheduleAttempts | Services/EmailWorker.cs:16-21 | one attempt per outcome while jobs wait, at most that many deliveries, and an early stop only on an empty queue |
| EmailWorkers.FailuresKeepQueue | Services/EmailWorker.cs:23-28 | under any number of consecutive failures nothing is delivered and the queue keeps its length and contents; there is no retry limit |
| Orders.NewOrder | Models/Order.cs:22-78 | a new order is unprocessed, due and not paid, with no items and a zero total |
| Orders.IsPaid | Models/Order.cs:72 | paid exactly when the payment status is Fizetve; NewOrder states a new order is not paid |
| Orders.ItemsTotal | Models/Order.cs:88 | Σ price × quantity over the items; its laws are ItemsTotalAppend and ItemsTotalNonNegative |
| Orders.RecalculateTotal | Models/Order.cs:86-89 | the total becomes Σ price × quantity over the items, 0 for none; discount, shipping fee and every other field are unchanged |
| Orders.ItemsTotalAppend | Models/Order.cs:88 | the item sum over two lists is the sum of the two sums |
| Orders.ItemsTotalNonNegative | Models/Order.cs:88 | non-negative prices and quantities give a non-negative total |
| Orders.RecalculateTotalIdempotent | Models/Order.cs:86-89 | recalculating twice is recalculating once |
| Checkout.EmptyForm | Models/OrderMetadata.cs:32-41 | the form starts with billing same as shipping, no account, an empty password, home delivery and card payment |
| Checkout.FailingFieldsFacts | Models/OrderMetadata.cs:8-29 | a field is reported exactly when listed and refused by its attributes, in the listed order |
| Checkout.AttributeErrors | Models/OrderMetadata.cs:8-29 | the attribute errors are exactly the refused shipping fields, in declaration order |
| Checkout.ReportShape | Models/OrderMetadata.cs:49-71 | at most four results, only the billing fields and the password |
| Checkout.ReportSorted | Models/OrderMetadata.cs:51-71 | results come in the order zip, city, address, password |
| Checkout.BillingSorted | Models/OrderMetadata.cs:51-64 | the billing results keep the order zip, city, address, with the password after them |
| Checkout.ValidateShape | Models/OrderMetadata.cs:46-72 | Validate yields at most four results, from the billing fields and the password, in that order |
| Checkout.FourDigitsNotBlank | Models/OrderMetadata.cs:51 | four digits are never blank |
| Checkout.SameAddressSkipsBilling | Models/OrderMetadata.cs:49-65 | with billing same as shipping no billing error is reported, whatever the billing fields hold |
| Checkout.BillingErrors | Models/OrderMetadata.cs:49-64 | each billing error occurs exactly when billing differs and that field fails its check (zip by IsMatch, city blank, address blank or shorter than 5) |
| Checkout.PasswordError | Models/OrderMetadata.cs:68-71 | a password error occurs exactly when an account is requested and the password is null, blank or shorter than 6 |
| Checkout.Validate | Models/OrderMetadata.cs:46-72 | the form's own rules; their properties are ValidateShape, SameAddressSkipsBilling, BillingErrors and PasswordError |
| Checkout.AddressChecksAgree | Models/OrderMetadata.cs:20-64 | the shipping-address attributes and the billing-address rule agree on the same text |
| Checkout.ZipChecksDisagree | Models/OrderMetadata.cs:28-51 | "1234\n" passes the billing zip rule but fails the shipping zip attribute |
| Checkout.ShippingFieldsExact | Models/OrderMetadata.cs:16-29 | a valid zip is exactly four digits, a valid phone an optional + and 7-18 digits or white space not all blank, a valid address at least 5 characters not all blank |
| Checkout.PhoneWithoutDigits | Models/OrderMetadata.cs:16-17 | "+" and seven spaces is a valid phone number |
| Checkout.NameFieldExact | Models/OrderMetadata.cs:8-10 | a name is accepted exactly when it is not blank and consists of ASCII or Hungarian letters, white space and hyphens |
| Checkout.DigitRefusesName | Models/OrderMetadata.cs:8-10 | a digit anywhere in the name refuses it |
| Sitemap.RemoveDisallowedFacts | Controllers/SitemapController.cs:90 | the filter keeps only [a-z0-9\s-], never lengthens, adds no letter or digit, and is the identity on kept text |
| Sitemap.DropLeadingWhitespaceFacts | Controllers/SitemapController.cs:93 | dropping a white-space run leaves a suffix starting with non-white space |
| Sitemap.HyphenateWhitespaceChars | Controllers/SitemapController.cs:93 | replacing white-space runs by a hyphen yields only slug characters and adds no letter or digit |
| Sitemap.HyphenateWhitespaceFixes | Controllers/SitemapController.cs:93 | text without white space is unchanged |
| Sitemap.DropLeadingHyphensFacts | Controllers/SitemapController.cs:94 | dropping a hyphen run leaves a suffix not starting with a hyphen |
| Sitemap.CollapseHyphensShape | Controllers/SitemapController.cs:94 | after collapsing, no two hyphens are adjacent, and a leading hyphen only if the input had one |
| Sitemap.CollapseHyphensChars | Controllers/SitemapController.cs:94 | collapsing keeps slug characters and adds no letter or digit |
| Sitemap.CollapseHyphensFixes | Controllers/SitemapController.cs:94 | text without a double hyphen is unchanged |
| Sitemap.TrimStartFacts | Controllers/SitemapController.cs:96 | trimming the start leaves a suffix not starting with a hyphen, the text itself when it did not |
| Sitemap.TrimEndFacts | Controllers/SitemapController.cs:96 | trimming the end leaves a prefix not ending with a hyphen, the text itself when it did not |
| Sitemap.TrimKeepsShape | Controllers/SitemapController.cs:96 | trimming slug characters without a double hyphen gives a slug-shaped result |
| Sitemap.TrimHyphensFixes | Controllers/SitemapController.cs:96 | text with no hyphen at either end is unchanged |
| Sitemap.TrimHyphensOnly | Controllers/SitemapController.cs:96 | text of hyphens only trims to empty |
| Sitemap.GenerateSlugShape | Controllers/SitemapController.cs:73-97 | the slug holds only a-z, 0-9 and '-', has no '--', no hyphen at either end, and a blank name gives "product" |
| Sitemap.GenerateSlug | Controllers/SitemapController.cs:73-97 | the slug pipeline; its properties are GenerateSlugShape, SymbolsOnlyGiveEmptySlug, GenerateSlugIdempotent and LetterNamesFold |
| Sitemap.SymbolsOnlyGiveEmptySlug | Controllers/SitemapController.cs:75-96 | a non-blank name of removed symbols gives the empty slug, with no fallback |
| Sitemap.PlainSlugChain | Controllers/SitemapController.cs:90-94 | the filter, hyphenation and collapsing leave slug text unchanged |
| Sitemap.LowerFoldFixesSlugChars | Controllers/SitemapController.cs:80-87 | lower-casing and accent folding leave slug characters unchanged |
| Sitemap.GenerateSlugFixesSlugs | Controllers/SitemapController.cs:73-97 | a non-empty slug is its own slug |
| Sitemap.GenerateSlugIdempotent | Controllers/SitemapController.cs:73-97 | GenerateSlug(GenerateSlug(x)) == GenerateSlug(x) whenever the slug is non-empty |
| Sitemap.LetterNamesFold | Controllers/SitemapController.cs:80-96 | a name of letters that fold to a-z has as slug its lower-cased, accent-folded text (ő→o, ű→u) |
| Sitemap.WhiteSpaceNotFolded | Controllers/SitemapController.cs:80-87 | lower-casing and folding keep white space as it is |
| Sitemap.AccentedNotKept | Controllers/SitemapController.cs:83-90 | an accented letter that folds is itself removed by the filter |
| Sitemap.ActiveProducts | Controllers/SitemapController.cs:25-28 | exactly the active products; order and multiplicity are pinned by ActiveProductsAppend and ActiveProductsSingle |
| Sitemap.ActiveProductsAppend | Controllers/SitemapController.cs:25-28 | the filter distributes over concatenation, so query order is kept |
| Sitemap.ActiveProductsSingle | Controllers/SitemapController.cs:25-28 | a single product is kept exactly when it is active, once |
| Sitemap.ListingAt | Controllers/SitemapController.cs:51-63 | the listing is the head followed by one entry per item, in order |
| Sitemap.GetSitemap | Controllers/SitemapController.cs:20-68 | the loop builds exactly SitemapUrls of the active products |
| Sitemap.SitemapUrlsHead | Controllers/SitemapController.cs:36-48 | the sitemap starts with the home and the shop entries and has two more entries than active products |
| Sitemap.SitemapUrlsEntry | Controllers/SitemapController.cs:51-62 | entry k + 2 is the k-th active product's: baseUrl/product/{id}/{slug}, dated today, weekly, 0.6 |
| Sitemap.ProductLocShape | Controllers/SitemapController.cs:54-58 | every product location ends in its slug, which is slug-shaped |
| Newsletter.FindSubscriber | Services/NewsletterSevice.cs:21-22 | the first guest row with the address, None exactly when there is none |
| Newsletter.FindUser | Services/NewsletterSevice.cs:56 | the first user with the address, None exactly when there is none |
| Newsletter.Distinct | Services/NewsletterSevice.cs:82 | no duplicates, and exactly the addresses given |
| Newsletter.UserEmails | Services/NewsletterSevice.cs:70-73 | exactly the addresses of subscribed users with an address |
| Newsletter.GuestEmails | Services/NewsletterSevice.cs:76-79 | exactly the addresses of active guests |
| Newsletter.AllSubscribers | Services/NewsletterSevice.cs:65-83 | the distinct union of subscribed users and active guests; its properties are Distinct, UserEmails, GuestEmails, SubscribedIsListed and UnsubscribedIsNotListed |
| Newsletter.Subscribe | Services/NewsletterSevice.cs:16-44 | the guest table and answer of a subscription; its properties are SubscribeOutcomes and SubscribeKeepsEmailsUnique |
| Newsletter.UnsubscribeGuests | Services/NewsletterSevice.cs:51-53 | switches off the first guest row with the address; UnsubscribedIsNotListed states its effect |
| Newsletter.UnsubscribeUsers | Services/NewsletterSevice.cs:56-58 | switches off the first user with the address; UnsubscribedIsNotListed states its effect |
| Newsletter.NewsletterService.SubscribeGuest | Services/NewsletterSevice.cs:16-44 | the guest table and the answer become Subscribe's; no other table changes |
| Newsletter.NewsletterService.Unsubscribe | Services/NewsletterSevice.cs:46-62 | always answers true; the first guest row and the first user with the address are switched off; nothing else changes |
| Newsletter.SubscribeOutcomes | Services/NewsletterSevice.cs:24-43 | an unknown address adds one active row and answers true; an active one answers false and changes nothing; an inactive one is reactivated in place with a new date, adds no row and answers true |
| Newsletter.SubscribeKeepsEmailsUnique | Services/NewsletterSevice.cs:21-40 | subscribing never creates a second row for an address |
| Newsletter.SubscribedIsListed | Services/NewsletterSevice.cs:24-43 | after subscribing, the address is among all subscribers |
| Newsletter.UnsubscribedIsNotListed | Services/NewsletterSevice.cs:51-58 | with unique addresses, after unsubscribing the address is not among all subscribers |
| Settings.ToMapUnique | Services/SettingsService.cs:20 | the dictionary exists exactly when the keys are unique |
| Settings.ToMapContents | Services/SettingsService.cs:20 | the dictionary has exactly the table's keys, each with its row's value |
| Settings.ToMap | Services/SettingsService.cs:20 | ToDictionary: its properties are ToMapUnique, ToMapContents and ToMapSetValue |
| Settings.FindSetting | Services/SettingsService.cs:32 | the first row with the key (no earlier row has it), None exactly when the key is absent |
| Settings.Upsert | Services/SettingsService.cs:32-34 | overwrite the first row with the key or append one; its properties are UpsertKeepsKeysUnique and UpsertUpdatesMap |
| Settings.SettingsService.constructor | Services/SettingsService.cs:10-15 | the cache starts empty |
| Settings.SettingsService.LoadSettings | Services/SettingsService.cs:17-21 | succeeds exactly when keys are unique, and then the cache is the table's pairs; otherwise the cache is kept |
| Settings.SettingsService.GetDecimal | Services/SettingsService.cs:23-24 | the parsed cached value when present and parseable, otherwise the default |
| Settings.SettingsService.GetString | Services/SettingsService.cs:26-27 | the cached value when present, otherwise the default |
| Settings.SettingsService.UpdateSetting | Services/SettingsService.cs:29-38 | the table becomes the upsert and the cache is reloaded from it; no other table changes |
| Settings.UpsertKeepsKeysUnique | Services/SettingsService.cs:32-34 | upsert keeps keys unique, adds the key to the key set, and adds a row only for a new key |
| Settings.UpsertUpdatesMap | Services/SettingsService.cs:32-37 | on unique keys the dictionary after an upsert is the old one with key set to value |
| Settings.ToMapSetValue | Services/SettingsService.cs:34 | overwriting a row's value changes the dictionary only at that row's key |
| Settings.UpdateThenGet | Services/SettingsService.cs:29-38 | after an update the key answers the new value and every other key its old answer |
| Emails.GetBaseUrl | Services/EmailService.cs:21-31 | always ends with '/'; the default for a missing or empty URL; otherwise the URL with at most one '/' appended |
| Emails.GetBaseUrlIdempotent | Services/EmailService.cs:30 | normalising twice is normalising once, and a URL is kept exactly when it already ends with '/' |
| Emails.TrackingUrl | Services/EmailService.cs:100 | base URL, then "track-order/", then the token |
| Emails.TrackingUrlInjective | Services/EmailService.cs:100 | different tokens give different tracking URLs |
| Emails.OrderConfirmation | Services/EmailService.cs:98-159 | the bank-transfer block (amount and order id) appears exactly for "Utalás"; the link is the tracking URL; addressed to the customer |
| Emails.StatusUpdate | Services/EmailService.cs:162-178 | the same tracking link, the given subject, no bank block and no attachment |
| Emails.ConfirmationAndUpdateShareLink | Services/EmailService.cs:164 | the confirmation and the status update carry the same tracking link |
| Emails.SendLowStockAlert | Services/EmailService.cs:218-249 | no admin address: false and nothing sent; otherwise one row per product in list order, the fixed subject, and the transport's answer |
| Emails.AlertRowOf | Services/EmailService.cs:237-242 | one alert row: id, name, stock and threshold of the product; SendLowStockAlert states the rows |
| Emails.ReviewSlug | Services/EmailService.cs:273 | never longer than the name, and only [a-z0-9\s-] without spaces |
| Emails.ReviewLinks | Services/EmailService.cs:270-283 | one review link per order item, in item order: base + "product/" + id + "/" + slug |
| Emails.ReviewUrl | Services/EmailService.cs:274 | base + "product/" + id + "/" + review slug; ReviewLinks and ReviewSlugAgreesOnSlugs state its properties |
| Emails.ReviewSlugAgreesOnSlugs | Services/EmailService.cs:273 | on a non-empty slug the review slug and the sitemap slug agree |
| Emails.ReviewSlugFixesSlugChars | Services/EmailService.cs:273 | slug characters pass through unchanged |
| Emails.ReviewSlugDropsAccents | Services/EmailService.cs:273 | an accented letter is dropped by the review slug but folded by the sitemap slug |
| Text.NatToStringDigits | Services/OrderCleanupService.cs:72 | a number's decimal text is non-empty digits, one digit exactly below 10 |
| Text.NatToStringInjective | Services/OrderCleanupService.cs:72 | different numbers have different decimal texts |
| Text.IntToStringSign | Services/OrderCleanupService.cs:72 | an integer's text starts with '-' exactly when negative, followed by digits |
| Text.IntToStringInjective | Services/OrderCleanupService.cs:72 | different integers have different texts |

## Left out

- I/O is not modelled. This covers the SMTP transport, the HTML markup of the mails, `N0` number formatting, PDF attachment creation, the XML text of the sitemap and logging. The messages are modelled as records.
- Clocks and configuration are parameters. `DateTime.Now` becomes `now`/`today`, and `AppUrl` and `Email:SmtpUser` are optional strings.
- `decimal.TryParse` is the parameter `tryParse` of `GetDecimal`, because it depends on the culture.
- Culture-sensitive `ToLower` is modelled for ASCII, the Latin-1 capitals and the double-acute Ő/Ű only.
- Emails.GetBaseUrl: `EndsWith("/")` is modelled as an ordinal test of the last character, not a culture-aware comparison.
- The database is plain sequences. Key lookups take the first row; EF Core tracking, collation and transactions are not modelled.
- Settings.SettingsService.LoadSettings: on a duplicate key the source throws. The model returns false and keeps the cache.
- Numbers are unbounded: 32-bit overflow of stock and quantities is not modelled.
- Cart.CartService.LoadItems: the source keeps a reference to the caller's list, and each `CartItem.Product` is a live product entity. The model copies the lines as values, so later changes made through the caller's list or to a product are not seen by the cart (that aliasing is not captured).
- Orders.RecalculateTotal returns the updated order value instead of assigning a field.
- EmailQueues.EmailQueue.Dequeue requires a positive signal or a cancelled wait. Blocking on an empty queue and the thread safety of `ConcurrentQueue`/`SemaphoreSlim` are concurrency and are not modelled.
- The `ExecuteAsync` loops of the three background services are not modelled: timers, the startup delay, cancellation and catch-and-log. Each sweep is one method call, and the worker runs once per given outcome.
- Running a mail job is modelled by its outcome only (success or an exception).
- The `[EmailAddress]` attribute is not modelled: Email is checked only for presence.
- The `IValidatableObject` machinery is not modelled: attribute errors and `Validate` are separate lists.
- Checkout.ValidateShape: only the field names are stated, not the message texts.
- A null product name in the review slug is not modelled; names are strings.
- OrderCleanup.CreditOrder computes the reversal reason once per order instead of once per item. The text is the same.
- Program.cs, Data/AppDbContext.cs, Services/ProductService.cs, Services/PdfService.cs and Services/StripeService.cs are not part of this model. They hold framework wiring, the EF schema, a table read, PDF rendering and the payment gateway.
- Coupons, reviews, blacklists, categories and stock entries carry no behaviour in the core and are not modelled.
