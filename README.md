# CateringKita backend core, modelled in Dafny

CateringKita is a catering marketplace: customers order from food vendors, vendors publish menus, and an administrator manages categories, vendors and customers. This project models the services behind that backend in Dafny and proves properties of the model.

The centre is the order lifecycle:
- **Order builder.** A customer's request is checked against the customer profile, the vendor and the vendor's menus. Each menu's current price is captured into an order line, and the order total is computed.
- **Status machine.** A vendor moves an order one step at a time along pending → confirmed → preparing → ready → on_delivery → delivered.
- **Cancellation rule.** A separate rule decides who may cancel: a customer while the order is pending, a vendor while it is pending or confirmed.
- **Role-scoped reads.** The order list and detail only show a customer or vendor their own orders.

Around the order lifecycle are the smaller services:
- menus: ownership guards, the availability toggle and the list filter;
- categories: unique names, a delete refused while menus use the category, and a list ordered by name;
- customers: an ownership-guarded read, update and account deletion;
- vendors: the list and detail, update and delete, and the per-vendor order statistics.

The request validators are also modelled: order creation, status request, menu bodies and query, registration and password change.

## Layout

**The database.** It is a `Storage.Store` class. Each table is a `seq` of rows, and there is one auto-increment counter per table the services insert into.

**What `Store.Valid()` holds.**
- Primary and unique keys are unique.
- Ids lie below the counters.
- Category names are distinct.
- Menu prices are at least 0.
- Every order is consistent: it has at least one line, every line has quantity ≥ 1 and subtotal = price × quantity, and total = Σ subtotals + delivery fee.

**Service operations that write.** Each is split into two parts:
- a pure *outcome* function, which holds the guards in the source's order and the row it would write or the error it throws;
- a method on the store, which runs the outcome function, commits, and is proved to keep `Valid()` and to change only its own table.

**Conventions.**
- Money is held as integers, in minor units.
- Errors are kept only as their kind: NotFound, Forbidden, BadRequest or Conflict.
- Where the source tests JavaScript truthiness (`if (dto.categoryId)`, `city && …`), the model uses `TruthyInt`/`TruthyString`, so 0 and "" behave as absent.

**Behaviour that follows the code, not the obvious reading.**
- **Menu check.** The code compares counts: the number of menus found against the number of items requested. So a request that repeats a menu id is refused, even when every id names an available menu of the vendor (`Orders.MatchCountIff`, `Orders.DuplicateMenuRejected`).
- **Error kinds.** The code raises BadRequest both for an inactive vendor and for an illegal status step, the same kind as for malformed input. Neither has an error kind of its own.

## Model

| member | source | states |
|---|---|---|
| OrderStatus.NextStatus | backend/src/orders/orders.service.ts:12-18 | the successor of each status is the next one in the fulfilment chain; delivered and cancelled, and only they, have none |
| OrderStatus.TokenRoundTrip | backend/src/orders/orders.service.ts:12-18 | the stored lowercase tokens and the statuses correspond one to one |
| OrderStatus.CancelWindow | backend/src/orders/orders.service.ts:274-286 | a customer may cancel iff the order is pending, a vendor iff pending or confirmed; nobody may cancel a cancelled order |
| OrderStatus.LifecycleShape | backend/src/orders/orders.service.ts:205-291 | any status history built from forward steps and allowed cancellations starting at pending follows the chain, never repeats or goes back, and ends at most once in cancelled, reached from pending or confirmed |
| OrderDto.ValidCreateOrder | backend/src/orders/dto/create-order.dto.ts:13-40 | an order request has at least one item, every quantity at least 1, and a delivery fee (if given) of at least 0 |
| OrderDto.DeliveryFee | backend/src/orders/dto/create-order.dto.ts:36-40 | the fee charged is the one given, or 0 when omitted, and is never negative |
| OrderDto.ParseStatusRequest | backend/src/orders/dto/update-order.dto.ts:3-15 | exactly the tokens of confirmed, preparing, ready, on_delivery and delivered are accepted; pending and cancelled can never be requested |
| OrderDto.RequestableAreSuccessors | backend/src/orders/dto/update-order.dto.ts:3-9 | the requestable statuses are exactly the values the status flow can move an order to |
| Orders.MatchCountIff | backend/src/orders/orders.service.ts:48-58 | the menu query finds as many rows as there are items iff no menu id repeats and every requested menu exists and belongs to the vendor |
| Orders.MatchedFound | backend/src/orders/orders.service.ts:56-69 | after the count check, each item's menu is found among the rows returned, and it is the table's row with that id |
| Orders.AvailableIff | backend/src/orders/orders.service.ts:60-65 | the returned rows are all available iff every requested menu can be ordered |
| Orders.SubtotalsAreCost | backend/src/orders/orders.service.ts:68-79 | the line subtotals sum to Σ quantity × menu price over the requested items |
| Orders.PlanOrder | backend/src/orders/orders.service.ts:24-106 | create fails only with NotFound (no customer profile or no vendor, and exactly then) or BadRequest; a created order gets the given id, status pending, the caller's customer id, the vendor and the notes |
| Orders.PlanOrderSucceedsIff | backend/src/orders/orders.service.ts:26-65 | create succeeds iff the customer profile exists, the vendor exists and is active, no menu id repeats, and every menu exists, belongs to the vendor and is available |
| Orders.DuplicateMenuRejected | backend/src/orders/orders.service.ts:48-58 | a request naming the same menu twice is refused |
| Orders.PlanOrderPricing | backend/src/orders/orders.service.ts:67-89 | each line carries the menu's current price, the quantity and subtotal = price × quantity; total = cost of the items + delivery fee; the fee is stored; the order is consistent |
| Orders.ExampleOrderAccepted | backend/src/orders/orders.service.ts:24-106 | two of a 10000 menu make a pending order of total 20000 with a single line |
| Orders.ExampleUnavailableRefused | backend/src/orders/orders.service.ts:60-65 | adding an unavailable menu of the same vendor is refused with BadRequest |
| Orders.Create | backend/src/orders/orders.service.ts:24-106 | the store gains exactly the planned order under the next id, or nothing on failure, and stays valid |
| Orders.AdvanceOutcome | backend/src/orders/orders.service.ts:205-229 | NotFound iff the order is absent, Forbidden iff the caller is not the owning vendor's user, success iff additionally the request is exactly the successor; the result changes only the status |
| Orders.UpdateStatus | backend/src/orders/orders.service.ts:205-233 | on success only that order's status is written; on failure the orders are unchanged |
| Orders.CancelOutcome | backend/src/orders/orders.service.ts:253-286 | NotFound iff absent, Forbidden iff a customer or vendor does not own the order; success for a customer needs pending, for a vendor pending or confirmed; the result changes only the status, to cancelled |
| Orders.CancelSucceedsIff | backend/src/orders/orders.service.ts:274-286 | for an owner, cancellation succeeds exactly inside the caller's window |
| Orders.Cancel | backend/src/orders/orders.service.ts:253-291 | on success only that order's status becomes cancelled; on failure nothing changes |
| Orders.CancelledIsFinal | backend/src/orders/orders.service.ts:221-286 | after a cancellation, neither a status update nor another cancellation of that order succeeds |
| Orders.ScopeFor | backend/src/orders/orders.service.ts:114-133 | a customer or vendor is scoped to their own profile id, with NotFound when there is none; an administrator sees every order |
| Orders.FindAllOrders | backend/src/orders/orders.service.ts:114-158 | the list holds exactly the orders in the caller's scope, each as often as the table holds it, so `total` is their count |
| Orders.FindOneOrder | backend/src/orders/orders.service.ts:160-203 | NotFound iff absent; Forbidden iff a customer or vendor does not own it; an administrator reads any existing order |
| Orders.ListedIffReadable | backend/src/orders/orders.service.ts:114-200 | for a customer or vendor, an order is in the list iff the detail read of it succeeds |
| Vendors.FindAllVendors | backend/src/vendors/vendors.service.ts:15-19 | exactly the active vendors, and only those of the city when a non-empty city is given, each once per table row, so `total` is their count |
| Vendors.FindVendor | backend/src/vendors/vendors.service.ts:80-131 | NotFound iff the id is unknown; otherwise the vendor with exactly its available menus, each once per table row |
| Vendors.FindVendorMenus | backend/src/vendors/vendors.service.ts:207-233 | NotFound iff the id is unknown; otherwise exactly the vendor's menus, each once per table row, so `total` is their count |
| Vendors.DetailMenusAreAvailableVendorMenus | backend/src/vendors/vendors.service.ts:91-101 | the detail lists exactly the available subset of the vendor's menu list |
| Vendors.UpdateVendorOutcome | backend/src/vendors/vendors.service.ts:156-169 | NotFound iff the caller has no vendor profile; otherwise the caller's own row with the supplied fields written |
| Vendors.EmptyPatchIsIdentity | backend/src/vendors/vendors.service.ts:167-170 | an update with no fields leaves the row as it is |
| Vendors.UpdateVendor | backend/src/vendors/vendors.service.ts:156-179 | only the caller's vendor row changes |
| Vendors.RemoveVendor | backend/src/vendors/vendors.service.ts:187-200 | NotFound and nothing deleted for an unknown id; otherwise exactly that vendor row is deleted |
| Vendors.CountsOf | backend/src/vendors/vendors.service.ts:283-289 | the k-th count is the number of orders in the k-th status (pending … delivered, then cancelled); the seven counts sum to the number of orders |
| Vendors.Stats | backend/src/vendors/vendors.service.ts:280-293 | totalOrders is the number of orders, each status count is the number of orders in that status, totalRevenue is the revenue of the delivered orders; the counts partition the total |
| Vendors.StatsOfOne | backend/src/vendors/vendors.service.ts:280-293 | one order counts once, in its own status, and adds its total to the revenue only when delivered |
| Vendors.StatsAppend | backend/src/vendors/vendors.service.ts:280-293 | the statistics of two lists together are the field-wise sums of their statistics |
| Vendors.Revenue | backend/src/vendors/vendors.service.ts:290-292 | `totalRevenue`: the totals of the delivered orders, summed |
| Vendors.RevenueAppend | backend/src/vendors/vendors.service.ts:290-292 | revenue is additive over lists of orders |
| Vendors.RevenueOfOne | backend/src/vendors/vendors.service.ts:290-292 | one order contributes its total when delivered and 0 in every other status |
| Vendors.RevenueNonNegative | backend/src/vendors/vendors.service.ts:290-292 | over consistent orders the revenue is at least 0 |
| Vendors.FindVendorOrders | backend/src/vendors/vendors.service.ts:237-303 | NotFound iff the caller has no vendor profile; otherwise exactly that vendor's orders, each once per table row, with their statistics |
| Vendors.ReportedRevenueNonNegative | backend/src/vendors/vendors.service.ts:290-292 | the revenue reported over the store's orders is at least 0 |
| MenuDto.ValidCreateMenu | backend/src/menus/dto/create-menu.dto.ts:5-36 | a new menu has a name of at most 100 characters, a price of at least 0, calories (if given) of at least 0 and an image URL (if given) of at most 255 characters |
| MenuDto.ValidUpdateMenu | backend/src/menus/dto/update-menu.dto.ts:5-34 | the same bounds for whichever fields an update supplies; an update has no availability field |
| MenuDto.ValidMenuQuery | backend/src/menus/dto/query-menu.dto.ts:15-25 | both price bounds, when given, are at least 0; nothing orders them |
| Menus.PlanMenu | backend/src/menus/menus.service.ts:11-43 | NotFound iff no vendor profile or a non-zero category id names no category; the new menu belongs to the caller's vendor, stores the category id as given, and is available unless stated otherwise |
| Menus.CreateMenu | backend/src/menus/menus.service.ts:11-43 | the store gains exactly the planned menu under the next id, or nothing |
| Menus.MenuAccess | backend/src/menus/menus.service.ts:112-119 | NotFound iff the menu is absent, Forbidden iff its vendor's user is not the caller |
| Menus.Apply | backend/src/menus/menus.service.ts:131-138 | an update writes the supplied fields, changes the category only when one is supplied, and never changes the id, the vendor or availability |
| Menus.UpdateMenuOutcome | backend/src/menus/menus.service.ts:106-138 | the ownership guard, then NotFound for a non-zero unknown category id, otherwise the updated row |
| Menus.UpdateMenu | backend/src/menus/menus.service.ts:106-143 | only that menu's row changes; nothing changes on failure |
| Menus.RemoveMenu | backend/src/menus/menus.service.ts:151-168 | after the guard exactly that menu is deleted; nothing changes on failure |
| Menus.ToggleOutcome | backend/src/menus/menus.service.ts:175-192 | after the guard the row with availability negated and nothing else changed |
| Menus.ToggleAvailable | backend/src/menus/menus.service.ts:175-197 | only that menu's row changes; nothing changes on failure |
| Menus.ToggleTwiceRestores | backend/src/menus/menus.service.ts:190-192 | toggling twice succeeds and restores the menu table |
| Menus.Contains | backend/src/menus/menus.service.ts:58-60 | the name contains the search text as a contiguous substring |
| Menus.MatchesQuery | backend/src/menus/menus.service.ts:54-67 | a menu matches when it meets each filter supplied: a truthy vendor or category id, a non-empty search, each given price bound |
| Menus.FindAllMenus | backend/src/menus/menus.service.ts:51-78 | exactly the menus meeting every supplied filter (vendor, category, name contains search, price bounds), each once per table row, so `total` is their count |
| Menus.ContainsSelf | backend/src/menus/menus.service.ts:58-60 | a search for a menu's full name finds it |
| Menus.InvertedRangeIsEmpty | backend/src/menus/menus.service.ts:61-66 | a range with its minimum above its maximum passes validation and matches no menu |
| Menus.EmptyQueryListsAll | backend/src/menus/menus.service.ts:54-67 | with no filters, the whole table is listed |
| Menus.ZeroIdsAreIgnored | backend/src/menus/menus.service.ts:56-57 | a vendor or category id of 0 filters nothing, as if omitted |
| Menus.FindMenu | backend/src/menus/menus.service.ts:81-101 | NotFound iff no menu has the id; otherwise that menu |
| Categories.PlanCategory | backend/src/categories/categories.service.ts:10-18 | Conflict iff the name is taken; otherwise the new row |
| Categories.CreateCategory | backend/src/categories/categories.service.ts:10-22 | the store gains exactly the new category under the next id (names stay distinct), or nothing |
| Categories.UpdateCategoryAsWritten | backend/src/categories/categories.service.ts:52-78 | NotFound iff unknown; Conflict iff a non-empty new name is held by another category; otherwise the patched row |
| Categories.EmptyNameBypassesUniqueness | backend/src/categories/categories.service.ts:62-78 | renaming to "" while another category is named "" is accepted and breaks name uniqueness |
| Categories.UpdateCategoryChecked | backend/src/categories/categories.service.ts:52-78 | NotFound iff unknown; Conflict iff any supplied name is held by another category; otherwise the patched row |
| Categories.CheckedAgreesExceptEmptyName | backend/src/categories/categories.service.ts:62-73 | the corrected update behaves as written for every name but "" |
| Categories.CheckedKeepsNamesDistinct | backend/src/categories/categories.service.ts:62-78 | the corrected update keeps category names pairwise distinct |
| Categories.KeepingOwnNameAllowed | backend/src/categories/categories.service.ts:63-68 | renaming a category to its own name is never a conflict |
| Categories.UpdateCategory | backend/src/categories/categories.service.ts:52-78 | runs the corrected check `UpdateCategoryChecked`, not the code as written (see Findings); only that category's row changes, and names stay distinct |
| Categories.MenuCount | backend/src/categories/categories.service.ts:90-98 | `_count.menus`: the number of menus filed under the category |
| Categories.MenuCountZeroIff | backend/src/categories/categories.service.ts:98 | the menu count is 0 iff no menu is filed under the category |
| Categories.RemoveCategoryOutcome | backend/src/categories/categories.service.ts:86-102 | NotFound iff unknown, Conflict iff some menu is filed under it, otherwise the row to delete |
| Categories.RemoveCategory | backend/src/categories/categories.service.ts:86-106 | exactly that row is deleted and no menu refers to it; nothing changes on failure |
| Categories.SortByName | backend/src/categories/categories.service.ts:37 | the result is ordered by name and is a permutation of the input |
| Categories.FindAllCategories | backend/src/categories/categories.service.ts:30-49 | every category exactly once, with its own menu count, ordered by name |
| Customers.OrderCount | backend/src/customers/customers.service.ts:15-32 | `_count.orders`: the number of orders of the customer, positive when it has any |
| Customers.FindAllCustomers | backend/src/customers/customers.service.ts:9-36 | every customer in table order, each with its own order count, which is 0 iff it has no orders |
| Customers.FindCustomer | backend/src/customers/customers.service.ts:39-75 | NotFound iff unknown; Forbidden iff a customer asks for another's profile; an administrator reads any |
| Customers.CustomerReadsOnlyOwnProfile | backend/src/customers/customers.service.ts:66-73 | a customer's read succeeds iff the id is that of their own profile |
| Customers.UpdateCustomerOutcome | backend/src/customers/customers.service.ts:78-91 | NotFound iff no customer profile; otherwise the caller's own row with the supplied fields written |
| Customers.UpdateCustomer | backend/src/customers/customers.service.ts:78-96 | only the caller's customer row changes |
| Customers.ValidCustomerPatch | backend/src/customers/dto/update-customer.dto.ts:4-16 | an update body has a phone of at most 20 characters and a city of at most 100, when given |
| Customers.DeleteAccount | backend/src/customers/customers.service.ts:113-116 | deleting the user removes that user row and, by the cascade, exactly the customer row at that position; the store stays valid |
| Customers.WithoutUser | backend/src/customers/customers.service.ts:114-116 | deleting a user leaves the table unchanged when no row has that id, and otherwise is the table without exactly that row; no remaining row has the id |
| Customers.RemoveSelf | backend/src/customers/customers.service.ts:104-116 | NotFound and nothing deleted without a profile; otherwise the caller's user row is deleted and the customers table is the old one without the caller's row |
| Customers.RemoveCustomer | backend/src/customers/customers.service.ts:123-136 | NotFound and nothing deleted for an unknown id; otherwise that customer's user row is deleted and the customers table is the old one without that row |
| AuthDto.StrongPassword | backend/src/auth/dto/register.dto.ts:22-31 | at least 8 characters, and the first line starts with an allowed character and holds a lowercase letter, an uppercase letter, a digit and a special character |
| AuthDto.ValidRegister | backend/src/auth/dto/register.dto.ts:17-79 | a registration has an email, a strong password, a name, a CUSTOMER or VENDOR role and the fields that role requires |
| AuthDto.ValidChangePassword | backend/src/auth/dto/change-password.dto.ts:3-17 | a password change has a non-empty old password and a strong new one |
| AuthDto.StrongHasEveryClass | backend/src/auth/dto/register.dto.ts:22-31 | an accepted password has at least 8 characters, an allowed first character and a lowercase, an uppercase, a digit and a special character |
| AuthDto.AnchoredAtStartOnly | backend/src/auth/dto/register.dto.ts:24-29 | anything appended to an accepted password keeps it accepted |
| AuthDto.OnlyFirstCharRestricted | backend/src/auth/dto/register.dto.ts:25 | characters outside the allowed class are accepted after the first |
| AuthDto.LookaheadsStopAtLineBreak | backend/src/auth/dto/register.dto.ts:25 | a required class that appears only after a line break does not count |
| AuthDto.RegisterRole | backend/src/auth/dto/register.dto.ts:12-15 | only CUSTOMER and VENDOR can be registered, never ADMIN |
| AuthDto.RoleConditionalFields | backend/src/auth/dto/register.dto.ts:41-74 | a customer needs exactly a non-empty phone, a vendor exactly the four non-empty vendor fields; ADMIN is refused |
| AuthDto.ChangePasswordRule | backend/src/auth/dto/change-password.dto.ts:4-15 | an accepted change has a non-empty old password and a new one of at least 8 characters with every class, which registration accepts too |

## Left out

- Response shapes (`include`/`select`), `orderBy created_at`, timestamps and the message texts: only the rows and the error kind are modelled.
- Transactions and concurrency: each service call is one atomic step on the store. The read-then-write race in `updateStatus`/`cancel` is not modelled.
- Floating point: prices, fees and totals are integers in minor units. The vendors' average rating, `toFixed` and the `minRating` filter are left out.
- Categories.UpdateCategory: the store runs the corrected name check, so it refuses a rename to "" while another category is named "", which the code as written (`Categories.UpdateCategoryAsWritten`) accepts; see Findings.
- Menus.PlanMenu: a menu created without `available` is stored as available. That is a column default the source does not show: `create` spreads the body and never supplies the value.
- Menus.Apply: an explicit `null` for `categoryId`, `description`, `calories` or `image_url` passes validation and clears that column in the source; the update body's fields are `Option`s here, so `null` is treated like an absent field and the old value is kept.
- Customers.UpdateCustomerOutcome: likewise, an explicit `null` address or city clears the column in the source but keeps the old value here.
- Menus.PlanMenu and Menus.UpdateMenuOutcome: a `categoryId` of 0 is falsy, so the source skips the category lookup and then writes `category_id: 0`, which the database's foreign key refuses. The model returns success with that dangling category id, because the foreign keys are not modelled.
- Vendors.FindAllVendors: does not apply the `minRating` filter, which depends on floating-point averages; with a minimum rating the source returns a subset of this result.
- Vendors.FindVendorMenus: the source orders the menus by name; the model returns them in table order and states their multiset, not their order.
- Vendors.FindVendor: reviews, their average and the menus' order by name are not modelled, because reviews are not among the modelled tables.
- Customers.FindAllCustomers: the review count is not modelled, for the same reason.
- Vendors.RemoveVendor: the cascade to the vendor's menus and orders is database schema behaviour not visible in the source, so only the vendor row is deleted.
- Customers.RemoveSelf: only the user row and, as the source comment states, the customer row are deleted; further cascades (orders, reviews) are schema behaviour not visible here.
- Vendors.UpdateVendor: the update body file is not part of this model, so the patch carries the profile columns name, description, address, city and phone.
- Categories.SortByName: names are compared by character code; the database collation and the order of equal names are not modelled.
- The initial status of an order is pending. `create` does not write it; it comes from a column default not shown in the source, and `cancel` assumes it.
- Ownership checks that read through a relation (`order.customer.user.id`, `menu.vendor.user_id`) count as "not owned" when the related row is missing. The schema's foreign keys, which rule this out, are not modelled.
- Password hashing, JWT signing, the auth service, `@IsEmail` (only non-emptiness is modelled), controllers (their role restrictions become preconditions, e.g. `cancel` for customers and vendors only), the frontend, the seed and module configuration.
- Menus.Contains: the search is case-sensitive character matching; database collation is not modelled.

## Findings

| source | as written | input that shows it | evidently intended | confidence | as-written member | corrected member |
|---|---|---|---|---|---|---|
| backend/src/categories/categories.service.ts:62 | the duplicate-name check runs only when the new name is truthy, so "" skips it and is still written | categories 1 named "" and 2 named "Drinks"; update category 2 with name "" | check every supplied name, keeping category names distinct as `create` does | not executed; a unique index on the name column, if the schema has one, would turn this into a database error instead | Categories.EmptyNameBypassesUniqueness | Categories.UpdateCategoryChecked |
