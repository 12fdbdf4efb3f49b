# Wholesale e-commerce store: a verified model of its business rules

The system is a wholesale web shop. Its ASP.NET Core backend has three layers:
- domain entities: products with variants, images and options; orders with items; users;
- EF Core repositories over SQLite;
- application services for products and accounts.

A React client browses the catalogue, adds products and guards admin pages.

This project models the small, exact rules underneath the HTTP, ORM and React plumbing, and proves what they promise.

**Backend model:**
- `Primitives`, `Text`, `Query`, `Wrappers`: the value types the backend relies on, plus the LINQ operators its queries use.
  - Amounts are exact integers of cents, and instants are whole seconds.
  - Identifiers are opaque numbers. `Wrap32` is unchecked 32-bit `int` arithmetic.
  - ASCII `ToLower`, `Contains` and ordinal string order (SQLite's BINARY collation).
  - `Where`, `FirstOrDefault`, `OrderBy` and `Skip`/`Take`.
- `ProductEntities`, `OrderEntities`, `UserEntities`: the entities and their computed properties.
  - `TrackedProduct` is the product instance that `UpdateInventory` changes in place.
- `DbContext`: the store.
  - The comma converter for `Tags` and option `Values`.
  - The `Database` class: one sequence per table, with the unique indexes and foreign keys as its invariant `Valid()`. Cascading children are nested in their parent rows.
- `ProductRepository`, `OrderRepository`, `UserRepository`, `OrderNumbers`:
  - queries are functions of the table contents;
  - updates are methods that change the `Database` in place and keep `Valid()`;
  - order numbers are formatted and parsed the way .NET does.
- `ProductService`, `UserService`: the service rules.
  - Authorisation, and visibility of non-active products.
  - Partial updates, and duplicate rejection.
  - The login / refresh / logout token life cycle.
  - The page count.

**Client model:**
- `ClientText`: JavaScript `trim`, `parseInt` and numbers that may be `NaN`.
- `UrlParams`: a `URLSearchParams` object as a class over its list of pairs.
- Page modules:
  - `ProductsPage`: the pager and the address rebuilding;
  - `ProductCard`: derived display values;
  - `ProtectedRoute`: the route guard;
  - `AddProductPage`: the slug and the tag editor;
  - `ProductApiClient`: the query strings `productService.ts` builds.

Foreign code is passed in as parameters:
- password hashing: a `Crypto` pair of functions, with its soundness as a `requires` where needed;
- token issuing: a `Tokens` record;
- `Guid.NewGuid()`: a `newGuid` function or an id parameter;
- `DateTime.UtcNow`: a `now` parameter, read once per call.

The model documents these behaviours as the code has them:
- `UserService.GetByIdAsync` without a caller returns nothing.
- Registration copies the requested role.
- The two price bounds of a product search may be met by different variants.
- A refresh token stored without an expiry never expires: the lifted `<=` on a null `DateTime?` is false.
- The login response already shows the new `LastLoginAt`, because EF Core's tracked instance is shared.
- The order-number generator takes the text maximum of existing numbers (see Findings).

## Model

| member | source | states |
|---|---|---|
| Primitives.Wrap32 | backend/src/WholesaleEcommerce.Domain/Entities/Product.cs:81 | unchecked `int` addition: the result is a 32-bit value congruent to the exact sum modulo 2^32, equal to it when it fits |
| Primitives.CheckedSum | backend/src/WholesaleEcommerce.Domain/Entities/Product.cs:61 | `Enumerable.Sum` over `int`, which is checked: a result is the exact sum, and a 32-bit value when the start is; no result once a partial sum overflows |
| Primitives.CheckedSumOfNaturals | backend/src/WholesaleEcommerce.Domain/Entities/Product.cs:61 | over non-negative terms `CheckedSum` has a result iff the exact total is at most int.MaxValue, and then equals it |
| Text.ToLower | backend/src/WholesaleEcommerce.Infrastructure/Repositories/ProductRepository.cs:95-102 | ASCII `ToLower`: same length, A–Z mapped to a–z position by position, every other character kept |
| Text.ToLowerIdempotent | backend/src/WholesaleEcommerce.Infrastructure/Repositories/ProductRepository.cs:95-102 | lower-casing an already lower-cased text changes nothing |
| Text.ToLowerConcat | backend/src/WholesaleEcommerce.Infrastructure/Repositories/UserRepository.cs:89-92 | lower-casing distributes over concatenation |
| Text.ContainsInConcat | backend/src/WholesaleEcommerce.Infrastructure/Repositories/UserRepository.cs:89-92 | a substring of either part is a substring of the joined text |
| Text.NatToString | src/WholesaleEcommerce.Infrastructure/Repositories/OrderRepository.cs:254 | decimal text of a natural number: non-empty, digits only |
| Text.PadLeftZeros | src/WholesaleEcommerce.Infrastructure/Repositories/OrderRepository.cs:254 | pads to the width with '0' on the left: length max(width, \|s\|), `s` is the suffix, only zeros before it |
| Query.FilterBy | backend/src/WholesaleEcommerce.Infrastructure/Repositories/ProductRepository.cs:93-145 | `Where`: keeps exactly the elements satisfying the predicate, never more than the input |
| Query.FilterPartition | backend/src/WholesaleEcommerce.Infrastructure/Repositories/ProductRepository.cs:125-135 | a predicate and its negation split a sequence: the two counts sum to its length |
| Query.FilterChain | backend/src/WholesaleEcommerce.Infrastructure/Repositories/ProductRepository.cs:93-145 | chained `Where` calls keep exactly what the conjunction of their predicates keeps |
| Query.FilterConcat | backend/src/WholesaleEcommerce.Infrastructure/Repositories/ProductRepository.cs:93-145 | filtering distributes over concatenation, so the order of survivors is kept |
| Query.FilterKeepsAll | backend/src/WholesaleEcommerce.Application/Services/ProductService.cs:87-93 | a `Where` that every element passes returns the sequence unchanged |
| Query.FirstMatch | backend/src/WholesaleEcommerce.Infrastructure/Repositories/UserRepository.cs:31 | `FirstOrDefault(f)`: none iff no element satisfies `f`; otherwise the least index that does |
| Query.StrLeTotal | src/WholesaleEcommerce.Infrastructure/Repositories/OrderRepository.cs:241 | ordinal (BINARY) string order is total |
| Query.StrLeTrans | src/WholesaleEcommerce.Infrastructure/Repositories/OrderRepository.cs:241 | ordinal string order is transitive |
| Query.StrLeAntisym | src/WholesaleEcommerce.Infrastructure/Repositories/OrderRepository.cs:241 | ordinal string order is antisymmetric |
| Query.SortBy | backend/src/WholesaleEcommerce.Infrastructure/Repositories/ProductRepository.cs:151-158 | one admissible result of `OrderBy`/`OrderByDescending`: a permutation of the input, sorted by the key in that direction |
| Query.SortedSlice | backend/src/WholesaleEcommerce.Infrastructure/Repositories/ProductRepository.cs:161-164 | a page cut from a sorted result is sorted |
| Query.Page | backend/src/WholesaleEcommerce.Infrastructure/Repositories/ProductRepository.cs:161-164 | `Skip((page-1)*pageSize).Take(pageSize)`, which SQLite runs as `LIMIT pageSize OFFSET (page-1)*pageSize`: the contiguous slice from the skipped count (nothing skipped for a negative offset), `PageLength` rows long |
| Query.PageLength | backend/src/WholesaleEcommerce.Infrastructure/Repositories/ProductRepository.cs:161-164 | the rows `LIMIT` lets through: never past the end; for a non-negative size at most `pageSize`, and fewer only at the end; a negative size is no limit and runs to the end |
| Query.UnlimitedPage | backend/src/WholesaleEcommerce.Infrastructure/Repositories/ProductRepository.cs:161-164 | a negative size is no limit: the page is every row from the offset on, and the whole input from page 1 on |
| Query.PageCovers | backend/src/WholesaleEcommerce.Infrastructure/Repositories/ProductRepository.cs:161-164 | with a positive size, row `i` is row `i % size` of page `i / size + 1`: paging loses nothing |
| Query.PageOfOrderingFacts | backend/src/WholesaleEcommerce.Infrastructure/Repositories/ProductRepository.cs:148-164 | a search page counts every matching row before paging; its `PageLength` rows are matching rows (a sub-multiset), sorted; a page as long as the match holds all of them |
| Query.TotalPages | backend/src/WholesaleEcommerce.Application/Services/ProductService.cs:79 | `ceil(totalCount / pageSize)`: for a positive size the least `r` with `totalCount <= r * pageSize`; no value for a zero size |
| Query.NonEmptyPages | backend/src/WholesaleEcommerce.Infrastructure/Repositories/ProductRepository.cs:161-164 | pages 1..TotalPages are exactly the non-empty pages; a page number below 1 returns page 1 |
| ProductEntities.Product.MainImage | backend/src/WholesaleEcommerce.Domain/Entities/Product.cs:53 | the first image at position 1, else the first image; absent only when there are no images |
| ProductEntities.Product.IsAvailable | backend/src/WholesaleEcommerce.Domain/Entities/Product.cs:55 | true iff some variant is available, i.e. has quantity > 0 (line 122) |
| ProductEntities.Product.MinPrice | backend/src/WholesaleEcommerce.Domain/Entities/Product.cs:57 | 0 without variants; otherwise a variant's price that no variant undercuts |
| ProductEntities.Product.MaxPrice | backend/src/WholesaleEcommerce.Domain/Entities/Product.cs:59 | 0 without variants; otherwise a variant's price that no variant exceeds |
| ProductEntities.Product.CheckedTotalInventory | backend/src/WholesaleEcommerce.Domain/Entities/Product.cs:61 | `TotalInventory` as C# evaluates it: when the getter returns, the exact total stock, within 32 bits |
| ProductEntities.Product.HasVariant | backend/src/WholesaleEcommerce.Domain/Entities/Product.cs:64 | true iff the search `GetVariant` makes finds the SKU |
| ProductEntities.Product.GetVariant | backend/src/WholesaleEcommerce.Domain/Entities/Product.cs:66 | a found variant carries the SKU and is the first one that does |
| ProductEntities.SkuIndex | backend/src/WholesaleEcommerce.Domain/Entities/Product.cs:64-66 | none iff no variant carries the SKU; otherwise the position of the first that does |
| ProductEntities.MinPriceAtMostMaxPrice | backend/src/WholesaleEcommerce.Domain/Entities/Product.cs:57-59 | `MinPrice <= MaxPrice` for every product |
| ProductEntities.TotalInventoryNonNegative | backend/src/WholesaleEcommerce.Domain/Entities/Product.cs:61 | total stock is non-negative when every quantity is |
| ProductEntities.TotalInventoryOverflows | backend/src/WholesaleEcommerce.Domain/Entities/Product.cs:61 | with non-negative stock, `TotalInventory` throws iff the total exceeds int.MaxValue |
| ProductEntities.TwoFullVariantsOverflow | backend/src/WholesaleEcommerce.Domain/Entities/Product.cs:61 | two variants holding int.MaxValue units each, which the column admits, make `TotalInventory` throw |
| ProductEntities.SumQuantitiesUpdate | backend/src/WholesaleEcommerce.Domain/Entities/Product.cs:61 | replacing one variant moves the total by exactly the change in its quantity |
| ProductEntities.AvailableIffStock | backend/src/WholesaleEcommerce.Domain/Entities/Product.cs:55-61 | with non-negative quantities, total stock > 0 iff the product is available |
| ProductEntities.HasVariantIffGetVariant | backend/src/WholesaleEcommerce.Domain/Entities/Product.cs:64-66 | `HasVariant(sku)` iff `GetVariant(sku)` finds a variant, which carries that SKU |
| ProductEntities.InStockImpliesAvailable | backend/src/WholesaleEcommerce.Domain/Entities/Product.cs:70-74 | `IsInStock(sku)` implies the product has the SKU and is available |
| ProductEntities.DuplicateSkuShadowsStock | backend/src/WholesaleEcommerce.Domain/Entities/Product.cs:70-74 | only the first variant with a SKU counts: a product can be available through a second variant with that SKU while `IsInStock` is false |
| ProductEntities.AdjustQuantity | backend/src/WholesaleEcommerce.Domain/Entities/Product.cs:81 | the new stock is in [0, int.MaxValue]; without overflow it is `max(0, q + delta)` |
| ProductEntities.AdjustedVariantsFrame | backend/src/WholesaleEcommerce.Domain/Entities/Product.cs:76-83 | an unknown SKU changes nothing; otherwise only the first matching variant's quantity changes, to the floored sum, and ids, SKUs and prices stay |
| ProductEntities.AdjustedTotalInventory | backend/src/WholesaleEcommerce.Domain/Entities/Product.cs:76-83 | without wrap-around, total stock moves by old quantity → `max(0, q + delta)` and nothing else |
| ProductEntities.OverflowResetsStock | backend/src/WholesaleEcommerce.Domain/Entities/Product.cs:81 | adding 1 to a stock of int.MaxValue wraps negative and the floor resets it to 0 |
| ProductEntities.TrackedProduct.UpdateInventory | backend/src/WholesaleEcommerce.Domain/Entities/Product.cs:76-83 | in place: the variant list becomes the adjusted list, every other field of the instance is unchanged |
| OrderEntities.NewOrder | src/WholesaleEcommerce.Domain/Entities/Order.cs:18-33 | a new order is "pending" in "USD", has no items, is cancellable, not shippable, shipped, delivered or cancelled |
| OrderEntities.CancelledIsFinal | src/WholesaleEcommerce.Domain/Entities/Order.cs:155-159 | a cancelled order can be neither cancelled nor shipped |
| OrderEntities.CancelAndShipOverlap | src/WholesaleEcommerce.Domain/Entities/Order.cs:157-159 | both cancellable and shippable iff the status is "confirmed" |
| OrderEntities.ShippedIgnoresStatus | src/WholesaleEcommerce.Domain/Entities/Order.cs:151-153 | `IsShipped` and `IsDelivered` never depend on the status |
| OrderEntities.ShippedStatusWithoutTracking | src/WholesaleEcommerce.Domain/Entities/Order.cs:151-159 | status "shipped" without a tracking number is not `IsShipped`, and is neither cancellable nor shippable |
| OrderEntities.TotalItemsAppend | src/WholesaleEcommerce.Domain/Entities/Order.cs:149 | adding an item raises `TotalItems` by its quantity |
| OrderEntities.TotalItemsNonNegative | src/WholesaleEcommerce.Domain/Entities/Order.cs:149 | `TotalItems` is non-negative when every quantity is |
| OrderEntities.Order.CheckedTotalItems | src/WholesaleEcommerce.Domain/Entities/Order.cs:149 | `TotalItems` as C# evaluates it: when the getter returns, the exact unit count, within 32 bits |
| OrderEntities.TotalItemsOverflows | src/WholesaleEcommerce.Domain/Entities/Order.cs:149 | with non-negative quantities, `TotalItems` throws iff the total exceeds int.MaxValue |
| OrderEntities.TwoFullItemsOverflow | src/WholesaleEcommerce.Domain/Entities/Order.cs:149 | two items of int.MaxValue units each make `TotalItems` throw |
| UserEntities.User.FullName | src/WholesaleEcommerce.Domain/Entities/User.cs:52 | first name, one space, last name: each part recoverable at its position |
| UserEntities.NewUser | src/WholesaleEcommerce.Domain/Entities/User.cs:28-32 | a new user is an active wholesale customer, not admin or retail, with no tokens or login |
| UserEntities.RolesExclusive | src/WholesaleEcommerce.Domain/Entities/User.cs:54-60 | admin, wholesale and retail are pairwise exclusive |
| UserEntities.AdminIsCaseSensitive | src/WholesaleEcommerce.Domain/Entities/User.cs:54 | role "Admin" equals "admin" ignoring case yet is not an administrator |
| UserEntities.FullNameSubsumesParts | backend/src/WholesaleEcommerce.Infrastructure/Repositories/UserRepository.cs:89-92 | a search term in either name part also occurs in the full name |
| DbContext.Join | src/WholesaleEcommerce.Infrastructure/Data/ApplicationDbContext.cs:209 | `string.Join(',')` is empty iff the list is empty or one empty element |
| DbContext.Split | src/WholesaleEcommerce.Infrastructure/Data/ApplicationDbContext.cs:210 | split with `RemoveEmptyEntries`: every piece is non-empty and comma-free |
| DbContext.Persisted | src/WholesaleEcommerce.Infrastructure/Data/ApplicationDbContext.cs:207-211 | a list read back from the column is always storable |
| DbContext.FieldsOfJoin | src/WholesaleEcommerce.Infrastructure/Data/ApplicationDbContext.cs:207-211 | splitting a join of comma-free elements, keeping empty fields, gives every element back |
| DbContext.RoundTrip | src/WholesaleEcommerce.Infrastructure/Data/ApplicationDbContext.cs:207-217 | the round trip through the column is exact iff no element is empty or contains ',' (tags and option values alike) |
| DbContext.EmptyRoundTrip | src/WholesaleEcommerce.Infrastructure/Data/ApplicationDbContext.cs:209-211 | an empty list is stored as "" and reads back empty |
| DbContext.CommaSplitsTag | src/WholesaleEcommerce.Infrastructure/Data/ApplicationDbContext.cs:207-211 | a tag "a,b" reads back as two tags |
| DbContext.PersistedIsFixpoint | src/WholesaleEcommerce.Infrastructure/Data/ApplicationDbContext.cs:207-217 | reading back is stable: a second round trip changes nothing |
| DbContext.StoredProduct | src/WholesaleEcommerce.Infrastructure/Data/ApplicationDbContext.cs:59-93 | the stored form keeps id, handle and every child row, each child pointing at the product |
| DbContext.StoredOrder | src/WholesaleEcommerce.Infrastructure/Data/ApplicationDbContext.cs:186-189 | the stored form keeps id, number and owner, every item pointing at the order |
| DbContext.StoredProductLinked | src/WholesaleEcommerce.Infrastructure/Data/ApplicationDbContext.cs:59-93 | every child row of a stored product references it |
| DbContext.Database.constructor | src/WholesaleEcommerce.Infrastructure/Data/ApplicationDbContext.cs:12-18 | an empty store satisfies every key, index and reference constraint |
| DbContext.AddedChildKeys | src/WholesaleEcommerce.Infrastructure/Data/ApplicationDbContext.cs:45-96 | a product joins the store with its variant, image and option keys unique per table iff each list is duplicate-free and meets no stored key; storing it keeps its keys |
| DbContext.AddedItemKeys | src/WholesaleEcommerce.Infrastructure/Data/ApplicationDbContext.cs:175-177 | an order joins the store with its item keys unique iff they are duplicate-free and meet no stored item key; storing it keeps its keys |
| DbContext.DistinctConcat | src/WholesaleEcommerce.Infrastructure/Data/ApplicationDbContext.cs:45-96 | two key lists joined are duplicate-free iff each is and they share no key |
| DbContext.FlattenReplace | src/WholesaleEcommerce.Infrastructure/Data/ApplicationDbContext.cs:45-96 | replacing a row by one with the same child keys leaves the table's key column unchanged |
| DbContext.RemoveKeepsDistinct | src/WholesaleEcommerce.Infrastructure/Data/ApplicationDbContext.cs:45-96 | removing a row and its children keeps the remaining keys unique |
| DbContext.ReplaceKeepsChildKeys | src/WholesaleEcommerce.Infrastructure/Data/ApplicationDbContext.cs:45-96 | a product row replaced by one with the same child keys keeps every child table's keys unique |
| DbContext.RemoveKeepsChildKeys | src/WholesaleEcommerce.Infrastructure/Data/ApplicationDbContext.cs:45-96 | deleting a product with its children keeps every child table's keys unique |
| DbContext.SkuNotUnique | src/WholesaleEcommerce.Infrastructure/Data/ApplicationDbContext.cs:64 | a valid store may hold two variants with the same SKU |
| ProductRepository.GetByIdAsync | backend/src/WholesaleEcommerce.Infrastructure/Repositories/ProductRepository.cs:20-27 | none iff no product has the id; a found product has it |
| ProductRepository.GetByHandleAsync | backend/src/WholesaleEcommerce.Infrastructure/Repositories/ProductRepository.cs:29-36 | none iff no product has exactly this handle; a found product has it |
| ProductRepository.ExistsByHandleAsync | backend/src/WholesaleEcommerce.Infrastructure/Repositories/ProductRepository.cs:76-79 | true iff some product has exactly this handle |
| ProductRepository.HandleIdentifies | backend/src/WholesaleEcommerce.Infrastructure/Repositories/ProductRepository.cs:29-36 | in a valid store, lookup by a product's handle or id returns that product |
| ProductRepository.Filtered | backend/src/WholesaleEcommerce.Infrastructure/Repositories/ProductRepository.cs:93-145 | the products kept are exactly those passing every active filter |
| ProductRepository.SortKeyFallback | backend/src/WholesaleEcommerce.Infrastructure/Repositories/ProductRepository.cs:151-158 | an unknown sort field sorts by creation time; the field name ignores case |
| ProductRepository.SearchAsync | backend/src/WholesaleEcommerce.Infrastructure/Repositories/ProductRepository.cs:81-167 | the count of matching products, and the requested page of some sorted permutation of them |
| ProductRepository.GetCountAsync | backend/src/WholesaleEcommerce.Infrastructure/Repositories/ProductRepository.cs:248-311 | at most the number of products; all of them without criteria |
| ProductRepository.CountMatchesSearch | backend/src/WholesaleEcommerce.Infrastructure/Repositories/ProductRepository.cs:248-311 | the count equals the search's total for the same criteria, on any page |
| ProductRepository.SearchResultsMatch | backend/src/WholesaleEcommerce.Infrastructure/Repositories/ProductRepository.cs:148-164 | every returned product is stored and passes every filter; the page is sorted and holds the `PageLength` rows the limit lets through |
| ProductRepository.InStockPartitions | backend/src/WholesaleEcommerce.Infrastructure/Repositories/ProductRepository.cs:125-135 | `InStock=true` and `InStock=false` together select every otherwise-matching product exactly once |
| ProductRepository.InStockSplitsMatch | backend/src/WholesaleEcommerce.Infrastructure/Repositories/ProductRepository.cs:125-135 | `InStock=true` adds "some variant has stock"; `false` adds its negation |
| ProductRepository.SearchIgnoresCase | backend/src/WholesaleEcommerce.Infrastructure/Repositories/ProductRepository.cs:93-103 | the search term matches the same products whatever its letter case |
| ProductRepository.StatusFilterIsExact | backend/src/WholesaleEcommerce.Infrastructure/Repositories/ProductRepository.cs:137-140 | the status filter is case-sensitive: "Active" excludes an "active" product |
| ProductRepository.PriceBoundsAreIndependent | backend/src/WholesaleEcommerce.Infrastructure/Repositories/ProductRepository.cs:115-123 | a product whose prices are 10.00 and 50.00 passes min 40 and max 20 together, through different variants |
| ProductRepository.GetByCategoryAsync | backend/src/WholesaleEcommerce.Infrastructure/Repositories/ProductRepository.cs:169-180 | a page of a newest-first ordering of products whose type equals the category ignoring case |
| ProductRepository.GetByVendorAsync | backend/src/WholesaleEcommerce.Infrastructure/Repositories/ProductRepository.cs:182-193 | a page of a newest-first ordering of products whose vendor equals the vendor ignoring case |
| ProductRepository.CategoryFacts | backend/src/WholesaleEcommerce.Infrastructure/Repositories/ProductRepository.cs:169-180 | every listed product is stored and of that type ignoring case; the list is newest first and `PageLength` long |
| ProductRepository.VendorFacts | backend/src/WholesaleEcommerce.Infrastructure/Repositories/ProductRepository.cs:182-193 | every listed product is stored and of that vendor ignoring case; the list is newest first and `PageLength` long |
| ProductRepository.GetFeaturedAsync | backend/src/WholesaleEcommerce.Infrastructure/Repositories/ProductRepository.cs:195-207 | the first `limit` of a newest-first ordering of active products |
| ProductRepository.FeaturedFacts | backend/src/WholesaleEcommerce.Infrastructure/Repositories/ProductRepository.cs:195-207 | every listed product is active; at most `limit` of them, or every active product for a negative limit; newest first |
| ProductRepository.GetRelatedAsync | backend/src/WholesaleEcommerce.Infrastructure/Repositories/ProductRepository.cs:209-226 | empty for an unknown id; otherwise the first `limit` of a newest-first ordering of related products |
| ProductRepository.RelatedFacts | backend/src/WholesaleEcommerce.Infrastructure/Repositories/ProductRepository.cs:209-226 | related products are newest first, never the product itself, all active, sharing its type or vendor; at most `limit`, or every such product for a negative limit |
| ProductRepository.GetInventoryAsync | backend/src/WholesaleEcommerce.Infrastructure/Repositories/ProductRepository.cs:240-246 | the stock of the product's first variant with the SKU, 0 when product or variant is missing |
| ProductRepository.UpdateInventoryAsync | backend/src/WholesaleEcommerce.Infrastructure/Repositories/ProductRepository.cs:228-238 | in place: only the first matching variant of that product is adjusted, and the store stays valid |
| ProductRepository.WithInventoryValid | backend/src/WholesaleEcommerce.Infrastructure/Repositories/ProductRepository.cs:228-238 | a stock adjustment keeps keys, handles and every order's references valid |
| ProductRepository.InventoryAfterUpdate | backend/src/WholesaleEcommerce.Infrastructure/Repositories/ProductRepository.cs:228-246 | reading the stock back gives the floored sum when the SKU exists, else 0; other SKUs keep their stock |
| ProductRepository.InventoryFrame | backend/src/WholesaleEcommerce.Infrastructure/Repositories/ProductRepository.cs:228-238 | products other than the target are untouched |
| ProductRepository.AddAsync | backend/src/WholesaleEcommerce.Infrastructure/Repositories/ProductRepository.cs:47-52 | the save fails iff the id or handle is taken or a variant, image or option key is taken or repeated; on success the stored form is appended, on failure nothing changes |
| ProductRepository.AddKeepsValid | backend/src/WholesaleEcommerce.Infrastructure/Repositories/ProductRepository.cs:47-52 | appending a product with a fresh id, handle and child keys keeps the store valid |
| ProductRepository.UpdateAsync | backend/src/WholesaleEcommerce.Infrastructure/Repositories/ProductRepository.cs:54-59 | an unknown id is a concurrency failure; a handle taken by another product fails; otherwise only the product's own columns change |
| ProductRepository.UpdateKeepsValid | backend/src/WholesaleEcommerce.Infrastructure/Repositories/ProductRepository.cs:54-59 | rewriting a product's columns with a free handle keeps the store valid |
| ProductRepository.ReplaceKeepsProductsValid | backend/src/WholesaleEcommerce.Infrastructure/Repositories/ProductRepository.cs:54-59 | replacing a product's row by one with the same id and child keys, linked children and a free handle keeps the products valid |
| ProductRepository.OrdersValidOnMoreKeys | src/WholesaleEcommerce.Infrastructure/Data/ApplicationDbContext.cs:191-199 | orders stay valid against a product table that keeps every product and variant id they reference |
| ProductRepository.DeleteAsync | backend/src/WholesaleEcommerce.Infrastructure/Repositories/ProductRepository.cs:61-69 | an unknown id does nothing; a product referenced by an order item stays (restrict); otherwise it goes with its children (cascade) |
| ProductRepository.IsReferencedCheck | src/WholesaleEcommerce.Infrastructure/Data/ApplicationDbContext.cs:191-199 | true iff some order item references the product or one of its variants |
| ProductRepository.DeleteKeepsValid | backend/src/WholesaleEcommerce.Infrastructure/Repositories/ProductRepository.cs:61-69 | deleting an unreferenced product keeps every remaining reference valid |
| OrderNumbers.CivilFromDays | src/WholesaleEcommerce.Infrastructure/Repositories/OrderRepository.cs:238 | the Gregorian date of a day count, split into 400-, 100-, 4- and 1-year blocks as `DateTime` does: month 1–12, day 1–31, year ≥ 1 |
| OrderNumbers.MonthDay | src/WholesaleEcommerce.Infrastructure/Repositories/OrderRepository.cs:238 | a day of the year found in the month table gives a month 1–12 and a day 1–31 |
| OrderNumbers.Digits | src/WholesaleEcommerce.Infrastructure/Repositories/OrderRepository.cs:238 | zero-padded decimal digits, at least the requested width |
| OrderNumbers.DatePrefix | src/WholesaleEcommerce.Infrastructure/Repositories/OrderRepository.cs:238 | `yyyyMMdd`: at least eight digits |
| OrderNumbers.CivilDateExample | src/WholesaleEcommerce.Infrastructure/Repositories/OrderRepository.cs:238 | day 739902 is 14 October 2026 |
| OrderNumbers.DatePrefixExample | src/WholesaleEcommerce.Infrastructure/Repositories/OrderRepository.cs:238 | every instant of 14 October 2026 formats as "20261014" |
| OrderNumbers.TryParseInt32 | src/WholesaleEcommerce.Infrastructure/Repositories/OrderRepository.cs:248 | `int.TryParse`: any parsed value is a 32-bit integer |
| OrderNumbers.FormatD4 | src/WholesaleEcommerce.Infrastructure/Repositories/OrderRepository.cs:254 | `D4`: at least four digits, with a leading '-' for a negative value |
| OrderNumbers.ParseFormatRoundTrip | src/WholesaleEcommerce.Infrastructure/Repositories/OrderRepository.cs:248-254 | what `D4` writes, `TryParse` reads back, for every 32-bit value |
| OrderRepository.GetByIdAsync | src/WholesaleEcommerce.Infrastructure/Repositories/OrderRepository.cs:20-31 | none iff no order has the id; a found order has it |
| OrderRepository.GetByOrderNumberAsync | src/WholesaleEcommerce.Infrastructure/Repositories/OrderRepository.cs:33-44 | none iff no order has exactly this number |
| OrderRepository.ExistsByOrderNumberAsync | src/WholesaleEcommerce.Infrastructure/Repositories/OrderRepository.cs:84-87 | true iff some order has exactly this number |
| OrderRepository.Filtered | src/WholesaleEcommerce.Infrastructure/Repositories/OrderRepository.cs:101-146 | the orders kept are exactly those passing every active filter |
| OrderRepository.SortKeyFallback | src/WholesaleEcommerce.Infrastructure/Repositories/OrderRepository.cs:152-161 | an unknown sort field sorts by creation time, in the requested direction |
| OrderRepository.SearchAsync | src/WholesaleEcommerce.Infrastructure/Repositories/OrderRepository.cs:89-170 | the count of matching orders, and the requested page of some sorted permutation of them |
| OrderRepository.GetCountAsync | src/WholesaleEcommerce.Infrastructure/Repositories/OrderRepository.cs:257-313 | at most the number of orders; all of them without criteria |
| OrderRepository.CountMatchesSearch | src/WholesaleEcommerce.Infrastructure/Repositories/OrderRepository.cs:257-313 | the count equals the search's total for the same filters, whatever the sort and page |
| OrderRepository.SearchResultsMatch | src/WholesaleEcommerce.Infrastructure/Repositories/OrderRepository.cs:149-167 | every returned order passes the filters; the page is sorted and holds the `PageLength` rows the limit lets through |
| OrderRepository.FilterEdges | src/WholesaleEcommerce.Infrastructure/Repositories/OrderRepository.cs:113-146 | status matches ignoring case; a missing payment status never matches; total and date bounds are inclusive |
| OrderRepository.SearchFindsOwnerEmail | src/WholesaleEcommerce.Infrastructure/Repositories/OrderRepository.cs:103-110 | a term found in the owner's e-mail finds the order |
| OrderRepository.GetByUserIdAsync | src/WholesaleEcommerce.Infrastructure/Repositories/OrderRepository.cs:172-186 | a page of a newest-first ordering of the user's orders |
| OrderRepository.GetByStatusAsync | src/WholesaleEcommerce.Infrastructure/Repositories/OrderRepository.cs:188-199 | a page of a newest-first ordering of orders whose status equals the given one ignoring case |
| OrderRepository.GetByPaymentStatusAsync | src/WholesaleEcommerce.Infrastructure/Repositories/OrderRepository.cs:201-212 | the same for a present payment status |
| OrderRepository.GetOrdersInDateRangeAsync | src/WholesaleEcommerce.Infrastructure/Repositories/OrderRepository.cs:349-358 | a newest-first ordering of every order created in the inclusive range |
| OrderRepository.GetOrderCountByStatusAsync | src/WholesaleEcommerce.Infrastructure/Repositories/OrderRepository.cs:360-363 | at most the number of orders |
| OrderRepository.GetOrderCountByPaymentStatusAsync | src/WholesaleEcommerce.Infrastructure/Repositories/OrderRepository.cs:365-368 | at most the number of orders |
| OrderRepository.GetCountByUserIdAsync | src/WholesaleEcommerce.Infrastructure/Repositories/OrderRepository.cs:370-373 | at most the number of orders |
| OrderRepository.CountByUserAgrees | src/WholesaleEcommerce.Infrastructure/Repositories/OrderRepository.cs:370-373 | the per-user count equals the criteria count with only that user set |
| OrderRepository.CountByStatusAgrees | src/WholesaleEcommerce.Infrastructure/Repositories/OrderRepository.cs:360-363 | the per-status count equals the criteria count for that status; an empty status filter counts everything |
| OrderRepository.CountByPaymentStatusAgrees | src/WholesaleEcommerce.Infrastructure/Repositories/OrderRepository.cs:365-368 | for a non-empty payment status the count equals the criteria count for it, and it always equals the length of the unpaged payment-status list, which holds exactly the orders with that payment status |
| OrderRepository.CountByUserSplits | src/WholesaleEcommerce.Infrastructure/Repositories/OrderRepository.cs:370-373 | two users' counts sum to the orders belonging to either |
| OrderRepository.GetTotalRevenueAsync | src/WholesaleEcommerce.Infrastructure/Repositories/OrderRepository.cs:315-330 | the revenue is non-negative when every total is; see RevenueIsRangeRevenue for its value |
| OrderRepository.GetOrderCountAsync | src/WholesaleEcommerce.Infrastructure/Repositories/OrderRepository.cs:332-347 | at most the number of orders |
| OrderRepository.RevenueOfOne | src/WholesaleEcommerce.Infrastructure/Repositories/OrderRepository.cs:315-330 | a single order contributes its total when created at or after `from` and at or before `to` (each bound only when given), else nothing |
| OrderRepository.RevenueIsRangeRevenue | src/WholesaleEcommerce.Infrastructure/Repositories/OrderRepository.cs:315-330 | the revenue is the sum, order by order, of the totals of exactly the orders created within the inclusive bounds |
| OrderRepository.RevenueFacts | src/WholesaleEcommerce.Infrastructure/Repositories/OrderRepository.cs:315-347 | revenue adds up over disjoint stores; without bounds it is the sum of all totals; the range count equals the criteria count with the same bounds |
| OrderRepository.NumbersWithPrefix | src/WholesaleEcommerce.Infrastructure/Repositories/OrderRepository.cs:239-240 | exactly the stored numbers that start with the prefix |
| OrderRepository.LexMax | src/WholesaleEcommerce.Infrastructure/Repositories/OrderRepository.cs:241-242 | the first number of a descending sort: none iff there are none, else one not below any other in ordinal order |
| OrderRepository.GenerateOrderNumberAsync | src/WholesaleEcommerce.Infrastructure/Repositories/OrderRepository.cs:236-255 | the number starts with today's `yyyyMMdd` and has at least four more characters |
| OrderRepository.NextSequence | src/WholesaleEcommerce.Infrastructure/Repositories/OrderRepository.cs:244-252 | no previous number, or a tail `int.TryParse` rejects, gives 1; a tail parsed as `v` gives `v + 1` wrapped to 32 bits |
| OrderRepository.UnparsableTailRestarts | src/WholesaleEcommerce.Infrastructure/Repositories/OrderRepository.cs:244-254 | when the greatest number with today's prefix has a tail `int.TryParse` rejects, the number is prefix + "0001" |
| OrderRepository.ParsedTailIncrements | src/WholesaleEcommerce.Infrastructure/Repositories/OrderRepository.cs:244-254 | when that tail parses as `v` ("12", " 7" and so on), the number is prefix + D4(`v + 1` wrapped to 32 bits) |
| OrderRepository.FirstOfTheDay | src/WholesaleEcommerce.Infrastructure/Repositories/OrderRepository.cs:244-254 | with no number carrying today's prefix, the number is prefix + "0001" |
| OrderRepository.NextAfterLast | src/WholesaleEcommerce.Infrastructure/Repositories/OrderRepository.cs:244-254 | after prefix + D4(k), the number is prefix + D4(k + 1); int.MaxValue wraps to int.MinValue |
| OrderRepository.TextOrderOfTails | src/WholesaleEcommerce.Infrastructure/Repositories/OrderRepository.cs:241 | behind the same prefix, "10000" sorts before "9999" |
| OrderRepository.NumberCollidesAfter9999 | src/WholesaleEcommerce.Infrastructure/Repositories/OrderRepository.cs:239-250 | with ...9999 and ...10000 stored, the generator returns ...10000 again |
| OrderRepository.SequenceOf | src/WholesaleEcommerce.Infrastructure/Repositories/OrderRepository.cs:247-248 | the parsed suffix of a number, a 32-bit integer when present |
| OrderRepository.AboveMaxIsFree | src/WholesaleEcommerce.Infrastructure/Repositories/OrderRepository.cs:236-255 | a number whose sequence exceeds every stored sequence is not taken |
| OrderRepository.GenerateOrderNumberNumeric | src/WholesaleEcommerce.Infrastructure/Repositories/OrderRepository.cs:236-255 | the corrected generator: a number with today's prefix that no order holds, unavailable only when the day's sequence reached int.MaxValue |
| OrderRepository.NumericAvoidsCollision | src/WholesaleEcommerce.Infrastructure/Repositories/OrderRepository.cs:236-255 | on the colliding day the numeric generator gives a number different from the text generator's |
| OrderRepository.GeneratorsAgreeOnFirst | src/WholesaleEcommerce.Infrastructure/Repositories/OrderRepository.cs:236-255 | on a day with no orders both generators give prefix + "0001" |
| OrderRepository.WithOrder | src/WholesaleEcommerce.Infrastructure/Repositories/OrderRepository.cs:214-223 | a targeted update: the one order with the id is transformed, every other row is unchanged, an unknown id changes nothing |
| OrderRepository.UpdatersKeepKeys | src/WholesaleEcommerce.Infrastructure/Repositories/OrderRepository.cs:214-395 | status, payment and shipping updates never touch ids, numbers, owner or items |
| OrderRepository.WithOrderValid | src/WholesaleEcommerce.Infrastructure/Repositories/OrderRepository.cs:214-395 | such an update keeps the store valid |
| OrderRepository.UpdateEffects | src/WholesaleEcommerce.Infrastructure/Repositories/OrderRepository.cs:375-384 | any status may be written, even undoing a cancellation; a tracking number makes the order shipped without changing status or update time; status "shipped" alone does not |
| OrderRepository.UpdateStatusAsync | src/WholesaleEcommerce.Infrastructure/Repositories/OrderRepository.cs:214-223 | in place: the order gets the status and the update time, with no transition check; the store stays valid |
| OrderRepository.UpdatePaymentStatusAsync | src/WholesaleEcommerce.Infrastructure/Repositories/OrderRepository.cs:225-234 | in place: the payment status and the update time; nothing else |
| OrderRepository.UpdateShippingInfoAsync | src/WholesaleEcommerce.Infrastructure/Repositories/OrderRepository.cs:375-384 | in place: tracking number and URL only; status and update time stay |
| OrderRepository.UpdatePaymentInfoAsync | src/WholesaleEcommerce.Infrastructure/Repositories/OrderRepository.cs:386-395 | in place: payment status and transaction id only |
| OrderRepository.ItemsResolveCheck | src/WholesaleEcommerce.Infrastructure/Data/ApplicationDbContext.cs:186-199 | true iff every stored item belongs to the order and references an existing product and variant |
| OrderRepository.AddAsync | src/WholesaleEcommerce.Infrastructure/Repositories/OrderRepository.cs:55-60 | the save fails iff the id or number is taken, a reference is missing, or an item key is taken or repeated; otherwise the stored order is appended and returned |
| OrderRepository.AddKeepsOrdersValid | src/WholesaleEcommerce.Infrastructure/Repositories/OrderRepository.cs:55-60 | appending an order with fresh id, number and item keys whose references resolve keeps the store valid |
| OrderRepository.CollisionFailsSave | src/WholesaleEcommerce.Infrastructure/Data/ApplicationDbContext.cs:168 | a generated number already in the store is rejected by the unique index |
| OrderRepository.DeleteAsync | src/WholesaleEcommerce.Infrastructure/Repositories/OrderRepository.cs:69-77 | an unknown id does nothing; otherwise the order leaves with its items and no order keeps the id |
| UserRepository.GetByIdAsync | backend/src/WholesaleEcommerce.Infrastructure/Repositories/UserRepository.cs:20-25 | none iff no user has the id |
| UserRepository.GetByEmailAsync | backend/src/WholesaleEcommerce.Infrastructure/Repositories/UserRepository.cs:27-32 | none iff no e-mail equals the address ignoring case; a found user's does |
| UserRepository.ExistsByEmailAsync | backend/src/WholesaleEcommerce.Infrastructure/Repositories/UserRepository.cs:70-73 | true iff some e-mail equals the address ignoring case |
| UserRepository.IsEmailUniqueAsync | backend/src/WholesaleEcommerce.Infrastructure/Repositories/UserRepository.cs:247-257 | true iff every user with that address, ignoring case, is the excluded one |
| UserRepository.UniqueIffNotExists | backend/src/WholesaleEcommerce.Infrastructure/Repositories/UserRepository.cs:247-257 | without an excluded id, unique is the negation of exists |
| UserRepository.EmailLookupIgnoresCase | backend/src/WholesaleEcommerce.Infrastructure/Repositories/UserRepository.cs:27-32 | looking up the lower-cased address returns the same user |
| UserRepository.OwnEmailUnique | backend/src/WholesaleEcommerce.Infrastructure/Repositories/UserRepository.cs:247-257 | a user's own address is unique when that user is excluded, and not unique otherwise |
| UserRepository.Filtered | backend/src/WholesaleEcommerce.Infrastructure/Repositories/UserRepository.cs:85-114 | the users kept are exactly those passing every active filter |
| UserRepository.SearchByFullName | backend/src/WholesaleEcommerce.Infrastructure/Repositories/UserRepository.cs:88-93 | the term matches iff it occurs in the lower-cased e-mail or full name |
| UserRepository.CreatedRangeInclusive | backend/src/WholesaleEcommerce.Infrastructure/Repositories/UserRepository.cs:106-114 | a user created on both bounds is kept |
| UserRepository.SortKeyFallback | backend/src/WholesaleEcommerce.Infrastructure/Repositories/UserRepository.cs:120-131 | an unknown sort field sorts by creation time |
| UserRepository.SearchAsync | backend/src/WholesaleEcommerce.Infrastructure/Repositories/UserRepository.cs:75-140 | the count of matching users, and the requested page of some sorted permutation of them |
| UserRepository.GetCountAsync | backend/src/WholesaleEcommerce.Infrastructure/Repositories/UserRepository.cs:185-225 | at most the number of users; all of them without criteria |
| UserRepository.CountMatchesSearch | backend/src/WholesaleEcommerce.Infrastructure/Repositories/UserRepository.cs:185-225 | the count equals the search's total for the same filters, whatever the sort and page |
| UserRepository.SearchResultsMatch | backend/src/WholesaleEcommerce.Infrastructure/Repositories/UserRepository.cs:116-137 | every returned user passes the filters; the page is sorted and holds the `PageLength` rows the limit lets through |
| UserRepository.WithLastLogin | backend/src/WholesaleEcommerce.Infrastructure/Repositories/UserRepository.cs:142-150 | only that user's `LastLoginAt` becomes now; an unknown id changes nothing |
| UserRepository.WithRefreshToken | backend/src/WholesaleEcommerce.Infrastructure/Repositories/UserRepository.cs:152-161 | only that user's token and expiry change, either possibly to null |
| UserRepository.UpdateLastLoginAsync | backend/src/WholesaleEcommerce.Infrastructure/Repositories/UserRepository.cs:142-150 | in place, as `WithLastLogin`, keeping the store valid |
| UserRepository.UpdateRefreshTokenAsync | backend/src/WholesaleEcommerce.Infrastructure/Repositories/UserRepository.cs:152-161 | in place, as `WithRefreshToken`, keeping the store valid |
| UserRepository.AddAsync | backend/src/WholesaleEcommerce.Infrastructure/Repositories/UserRepository.cs:41-46 | the save fails iff the id or the exact e-mail is taken; otherwise the user is appended |
| UserRepository.UpdateAsync | backend/src/WholesaleEcommerce.Infrastructure/Repositories/UserRepository.cs:48-53 | an unknown id is a concurrency failure; an e-mail taken by another user fails; otherwise the row is replaced |
| UserRepository.DeleteAsync | backend/src/WholesaleEcommerce.Infrastructure/Repositories/UserRepository.cs:55-63 | an unknown id does nothing; a user with orders stays (restrict); otherwise the user is removed |
| UserRepository.RemoveKeepsValid | backend/src/WholesaleEcommerce.Infrastructure/Repositories/UserRepository.cs:55-63 | removing a user without orders keeps the users and every order's owner valid |
| ProductService.DtoConsistent | backend/src/WholesaleEcommerce.Application/Services/ProductService.cs:360-423 | the DTO's availability, main image and price range agree with its own lists; its total stock is the getter's value whenever that does not overflow; children carry an empty product id; `Published` is never set |
| ProductService.GetByIdAsync | backend/src/WholesaleEcommerce.Application/Services/ProductService.cs:19-31 | found iff the product exists and is active or the caller is an administrator |
| ProductService.GetByHandleAsync | backend/src/WholesaleEcommerce.Application/Services/ProductService.cs:33-45 | found iff the handle exists and the product is active or the caller is an administrator |
| ProductService.SearchCriteria | backend/src/WholesaleEcommerce.Application/Services/ProductService.cs:49-67 | anyone but an administrator gets status "active"; an administrator's requested status is kept |
| ProductService.SearchAsync | backend/src/WholesaleEcommerce.Application/Services/ProductService.cs:47-81 | a mapped repository page for those criteria, echoing page and size, with `TotalPages = ceil(total / size)` |
| ProductService.SearchShowsOnlyActive | backend/src/WholesaleEcommerce.Application/Services/ProductService.cs:63-67 | non-administrators only ever see active products |
| ProductService.SearchIgnoresRequestedStatus | backend/src/WholesaleEcommerce.Application/Services/ProductService.cs:63-67 | for non-administrators the requested status makes no difference |
| ProductService.GetProductCountAsync | backend/src/WholesaleEcommerce.Application/Services/ProductService.cs:305-332 | at most the number of products; all of them for an administrator without a request |
| ProductService.CountAgreesWithSearch | backend/src/WholesaleEcommerce.Application/Services/ProductService.cs:305-332 | the count for a request equals the search total; without a request a non-administrator counts the active products |
| ProductService.VisibleDtos | backend/src/WholesaleEcommerce.Application/Services/ProductService.cs:87-93 | administrators get every product mapped; anyone else exactly the active ones; never more than the input |
| ProductService.VisibleDtosFrom | backend/src/WholesaleEcommerce.Application/Services/ProductService.cs:87-93 | every shown DTO maps a product of the input that the caller may see; when all are active everyone sees them all |
| ProductService.MapAllFrom | backend/src/WholesaleEcommerce.Application/Services/ProductService.cs:89-93 | every mapped DTO is the mapping of some input product |
| ProductService.GetByCategoryAsync | backend/src/WholesaleEcommerce.Application/Services/ProductService.cs:83-94 | at most the repository page and at most `pageSize`; an administrator gets the whole page; anyone else gets exactly the active products of that page, mapped in order; every DTO maps a stored product of that type, ignoring case, that the caller may see. Visibility comes after paging, so a page may come back shorter |
| ProductService.GetByVendorAsync | backend/src/WholesaleEcommerce.Application/Services/ProductService.cs:96-107 | at most the repository page and at most `pageSize`; an administrator gets the whole page; anyone else gets exactly the active products of that page, mapped in order; every DTO maps a stored product of that vendor, ignoring case, that the caller may see |
| ProductService.GetFeaturedAsync | backend/src/WholesaleEcommerce.Application/Services/ProductService.cs:109-120 | the repository list mapped, the same for every caller: at most `limit` DTOs, all active |
| ProductService.GetRelatedAsync | backend/src/WholesaleEcommerce.Application/Services/ProductService.cs:122-133 | the repository list mapped, the same for every caller: at most `limit` DTOs, all active, none the product itself |
| ProductService.BuiltProductShape | backend/src/WholesaleEcommerce.Application/Services/ProductService.cs:149-215 | the new product copies the request and holds one variant, image and option per entry, in order, each linked to the new id |
| ProductService.AddVariants | backend/src/WholesaleEcommerce.Application/Services/ProductService.cs:166-185 | the loop builds one variant per request entry, in order, with consecutive fresh ids |
| ProductService.AddImages | backend/src/WholesaleEcommerce.Application/Services/ProductService.cs:188-201 | the loop builds one image per request entry, in order |
| ProductService.AddOptions | backend/src/WholesaleEcommerce.Application/Services/ProductService.cs:204-215 | the loop builds one option per request entry, in order |
| ProductService.CreateAsync | backend/src/WholesaleEcommerce.Application/Services/ProductService.cs:135-219 | rejects non-administrators, then a taken handle (the message names it), leaving the store unchanged; otherwise the save fails iff the new id or a child key is taken, and else stores the built product |
| ProductService.UpdateKeepsIdentity | backend/src/WholesaleEcommerce.Application/Services/ProductService.cs:236-262 | an update never changes id, handle, creation time or child rows; empty texts keep their fields, null tags and SEO fields too |
| ProductService.UpdateAsync | backend/src/WholesaleEcommerce.Application/Services/ProductService.cs:221-264 | rejects non-administrators and missing products, leaving the store unchanged; otherwise stores the merged product |
| ProductService.DeleteAsync | backend/src/WholesaleEcommerce.Application/Services/ProductService.cs:266-281 | rejects non-administrators and missing products; otherwise the repository delete |
| ProductService.UpdateInventoryAsync | backend/src/WholesaleEcommerce.Application/Services/ProductService.cs:283-303 | rejects non-administrators, missing products and unknown SKUs, changing nothing; otherwise the floored adjustment |
| UserService.DtoConsistent | backend/src/WholesaleEcommerce.Application/Services/UserService.cs:285-302 | the DTO's full name and role flags agree with its own columns |
| UserService.GetByIdAsync | backend/src/WholesaleEcommerce.Application/Services/UserService.cs:22-34 | found iff the user exists and there is a caller who is an administrator or that user; no caller sees nothing |
| UserService.GetByEmailAsync | backend/src/WholesaleEcommerce.Application/Services/UserService.cs:36-48 | found iff the address exists ignoring case and the caller is an administrator or has exactly that address |
| UserService.OwnEmailOtherCaseHidden | backend/src/WholesaleEcommerce.Application/Services/UserService.cs:36-48 | a non-administrator asking for their own address in other letter case finds nothing |
| UserService.SearchAsync | backend/src/WholesaleEcommerce.Application/Services/UserService.cs:50-81 | "only admins" error iff the caller is not an administrator; otherwise the repository page with its page count |
| UserService.GetUserCountAsync | backend/src/WholesaleEcommerce.Application/Services/UserService.cs:260-283 | "only admins" error iff the caller is not an administrator; every user without a request |
| UserService.CountAgreesWithSearch | backend/src/WholesaleEcommerce.Application/Services/UserService.cs:260-283 | for an administrator the count equals the search total |
| UserService.NewAccount | backend/src/WholesaleEcommerce.Application/Services/UserService.cs:91-104 | the new account is active, has the requested role verbatim and the hashed password |
| UserService.CreateAsync | backend/src/WholesaleEcommerce.Application/Services/UserService.cs:83-108 | rejects an address that exists ignoring case, leaving the store unchanged; otherwise stores the new account |
| UserService.UpdateKeepsAccount | backend/src/WholesaleEcommerce.Application/Services/UserService.cs:125-151 | an update keeps id, e-mail, password and tokens; empty fields keep their values |
| UserService.NoSelfPromotion | backend/src/WholesaleEcommerce.Application/Services/UserService.cs:113-149 | an accepted non-administrator update is on the caller's own account and keeps role and status |
| UserService.UpdateAsync | backend/src/WholesaleEcommerce.Application/Services/UserService.cs:110-155 | a refused update (other account, missing user, role or status by a non-admin) changes nothing; otherwise the merged account is stored |
| UserService.DeleteAsync | backend/src/WholesaleEcommerce.Application/Services/UserService.cs:157-172 | rejects non-administrators and missing users; otherwise the repository delete |
| UserService.LoginAsync | backend/src/WholesaleEcommerce.Application/Services/UserService.cs:174-210 | a refused login changes nothing; otherwise it stamps the last login and stores the refresh token expiring at now + 7 days |
| UserService.LoginRefusal | backend/src/WholesaleEcommerce.Application/Services/UserService.cs:176-190 | a login is accepted iff the address is known ignoring case, the password verifies and the account is active; "not active" is said only after a correct password |
| UserService.LoginDoesNotRevealAccounts | backend/src/WholesaleEcommerce.Application/Services/UserService.cs:176-185 | an unknown address and a wrong password give the same error |
| UserService.TokenOwner | backend/src/WholesaleEcommerce.Application/Services/UserService.cs:215-216 | none iff no account holds the token; otherwise the holder with the least key, as the key-ordered rows put it first |
| UserService.RefreshRefusal | backend/src/WholesaleEcommerce.Application/Services/UserService.cs:215-226 | a refresh is accepted iff some account holds the token, its expiry is absent or later than now, and the account is active; "not active" is said only for an unexpired token |
| UserService.RefreshTokenAsync | backend/src/WholesaleEcommerce.Application/Services/UserService.cs:212-243 | fails, changing nothing, without an owner, on an expired token or an inactive account; otherwise replaces the token for 7 days |
| UserService.MissingExpiryNeverExpires | backend/src/WholesaleEcommerce.Application/Services/UserService.cs:218 | the least-keyed holder of a token stored without an expiry always passes the expiry check |
| UserService.LogoutAsync | backend/src/WholesaleEcommerce.Application/Services/UserService.cs:245-249 | clears the caller's token and expiry and nothing else |
| UserService.LogoutRevokesToken | backend/src/WholesaleEcommerce.Application/Services/UserService.cs:245-249 | after logout no token leads back to the caller's account |
| UserService.LoginTokenRefreshes | backend/src/WholesaleEcommerce.Application/Services/UserService.cs:193-234 | the token a login stores refreshes the same account until it expires |
| UserService.ValidatePasswordAsync | backend/src/WholesaleEcommerce.Application/Services/UserService.cs:251-258 | true iff the address is known ignoring case and the password verifies; false for an unknown address |
| UserService.RegisteredPasswordValidates | backend/src/WholesaleEcommerce.Application/Services/UserService.cs:251-258 | with a sound hash, the registration password validates afterwards under any case of the address |
| ClientText.TrimStart | frontend/src/pages/AddProductPage.tsx:69 | drops exactly the leading white space: the rest is a suffix starting with a non-blank |
| ClientText.TrimEnd | frontend/src/pages/AddProductPage.tsx:69 | drops exactly the trailing white space |
| ClientText.TrimFacts | frontend/src/pages/AddProductPage.tsx:69 | `trim()` returns a contiguous part with no white space at either end, every removed character white |
| ClientText.TrimBlank | frontend/src/pages/AddProductPage.tsx:69 | white space alone trims to "" |
| ClientText.DigitRun | frontend/src/pages/ProductsPage.tsx:21-22 | the longest digit prefix: all digits, and the next character is not one |
| ClientText.ParseNumber | frontend/src/pages/ProductsPage.tsx:21-22 | `parseInt` as a number: an integer exactly when the text parses, `NaN` otherwise |
| ClientText.ParseDecimal | frontend/src/pages/ProductsPage.tsx:21-22 | a digit string reads as its decimal value |
| ClientText.ParseNegativeDecimal | frontend/src/pages/ProductsPage.tsx:21-22 | '-' then digits reads as the negated value |
| ClientText.ParseIntRoundTrip | frontend/src/pages/ProductsPage.tsx:21-22 | reading back `String(n)` gives `n` |
| ClientText.ParseIntStopsAtNonDigit | frontend/src/pages/ProductsPage.tsx:21-22 | leading white space is skipped and reading stops at the first non-digit: white space, then a digit run not read as "0x", then any text not starting with a digit, reads as the run's decimal value (" 12px" reads 12) |
| ClientText.TrimWhitePrefix | frontend/src/pages/ProductsPage.tsx:21-22 | the white space before the first non-blank character is cut and nothing else |
| ClientText.DigitRunStops | frontend/src/pages/ProductsPage.tsx:21-22 | the digits read are exactly the leading run of digits of the radix |
| ClientText.ParseIntHex | frontend/src/pages/ProductsPage.tsx:21-22 | without a radix, "0x1F" reads 31 |
| ClientText.ParseIntNaN | frontend/src/pages/ProductsPage.tsx:21-22 | a text without digits is `NaN` |
| UrlParams.FirstValue | frontend/src/pages/ProductsPage.tsx:21-22 | `get`: none iff no pair has the name; otherwise the value of the first pair that does |
| UrlParams.SetThenGet | frontend/src/pages/ProductsPage.tsx:58 | after `set`, `get` returns the new value |
| UrlParams.SetKeepsOthers | frontend/src/pages/ProductsPage.tsx:58 | `set` keeps the pairs with other names, in order |
| UrlParams.SetKeepsOtherGets | frontend/src/pages/ProductsPage.tsx:58 | `set` changes no other name's `get` |
| UrlParams.SetLeavesOne | frontend/src/pages/ProductsPage.tsx:58 | after `set`, exactly one pair carries the name |
| UrlParams.SetNewName | frontend/src/pages/ProductsPage.tsx:49 | `set` of a name not yet present appends the pair |
| UrlParams.FirstValueConcat | frontend/src/services/productService.ts:31-43 | `get` on appended pairs: the earlier pairs answer first |
| UrlParams.SearchParams.constructor | frontend/src/pages/ProductsPage.tsx:46 | `new URLSearchParams()` is empty |
| UrlParams.SearchParams.FromEntries | frontend/src/pages/ProductsPage.tsx:57 | a copy of the current parameters |
| UrlParams.SearchParams.Append | frontend/src/services/productService.ts:31-43 | in place: the pair is added at the end |
| UrlParams.SearchParams.Set | frontend/src/pages/ProductsPage.tsx:49-58 | in place: the list becomes `SetEntry` of the old list |
| ProductsPage.Defaults | frontend/src/pages/ProductsPage.tsx:21-22 | with `page` or `limit` absent or empty, they are 1 and 20 |
| ProductsPage.WithFilter | frontend/src/pages/ProductsPage.tsx:43 | the property is replaced in place if present, else appended; other properties stay; distinct names stay distinct |
| ProductsPage.KeptEntries | frontend/src/pages/ProductsPage.tsx:47-51 | every written parameter names a filter property |
| ProductsPage.HandleFilterChange | frontend/src/pages/ProductsPage.tsx:42-54 | the new filters are the changed object; the parameters are one `set` per kept value, then page = "1" |
| ProductsPage.SetKeptAppends | frontend/src/pages/ProductsPage.tsx:47-51 | with distinct property names the `set` calls only append |
| ProductsPage.FilterChangeQuery | frontend/src/pages/ProductsPage.tsx:46-53 | the written address is the kept filters in order, then page = "1"; reading `page` back gives "1" |
| ProductsPage.KeptEntriesValue | frontend/src/pages/ProductsPage.tsx:47-51 | each property reads back as its text when not '', false or undefined, and is absent otherwise |
| ProductsPage.HandlePageChange | frontend/src/pages/ProductsPage.tsx:56-60 | the current parameters with `page` set to the new page's text |
| ProductsPage.PageChangeOnlyPage | frontend/src/pages/ProductsPage.tsx:56-60 | other parameters are untouched and the page read back is the new one |
| ProductsPage.PageWindow | frontend/src/pages/ProductsPage.tsx:197-198 | `min(5, totalPages)` buttons |
| ProductsPage.WindowInRange | frontend/src/pages/ProductsPage.tsx:197-198 | for 1 ≤ page ≤ totalPages the buttons are consecutive, within [1, totalPages], and include the current page |
| ProductsPage.PagerStaysInRange | frontend/src/pages/ProductsPage.tsx:186-216 | Previous is disabled iff on page 1, Next iff on the last page; enabled buttons lead into range; exactly one button is current |
| ProductsPage.UnparsedPage | frontend/src/pages/ProductsPage.tsx:191-216 | a `NaN` page enables both buttons and marks none as current |
| ProductCard.Prices | frontend/src/components/ProductCard.tsx:11-12 | the variant prices, in order |
| ProductCard.MathMin | frontend/src/components/ProductCard.tsx:11 | `Math.min(...)`: +Infinity iff empty, else the least element |
| ProductCard.MathMax | frontend/src/components/ProductCard.tsx:12 | `Math.max(...)`: -Infinity iff empty, else the greatest element |
| ProductCard.CardMainImage | frontend/src/components/ProductCard.tsx:10 | the first image at position 1, else the first image; none iff there are no images |
| ProductCard.CardAvailable | frontend/src/components/ProductCard.tsx:13 | true iff some variant is flagged available |
| ProductCard.SinglePriceIffUniform | frontend/src/components/ProductCard.tsx:51-55 | one price iff there are variants and all cost the same; a range otherwise, infinite without variants |
| ProductCard.CardMainImageAgrees | frontend/src/components/ProductCard.tsx:10 | on a server product the card shows the image the server chose |
| ProductCard.CardAvailableAgrees | frontend/src/components/ProductCard.tsx:13 | on a server product availability and "In Stock" match the server's flag |
| ProductCard.ExtremesAreUnique | frontend/src/components/ProductCard.tsx:11-12 | `Math.min`/`Math.max` of a non-empty list are its least and greatest element |
| ProductCard.CardPricesAgree | frontend/src/components/ProductCard.tsx:11-12 | with variants, the card's least and greatest price are the server's `MinPrice` and `MaxPrice` |
| ProductCard.ShownTags | frontend/src/components/ProductCard.tsx:69 | the first min(3, n) tags, in order |
| ProductCard.MoreCount | frontend/src/components/ProductCard.tsx:77-79 | "+N more" is present iff there are more than three tags |
| ProductCard.TagsAccounted | frontend/src/components/ProductCard.tsx:69-79 | the shown tags plus N account for every tag, N being the count past the third |
| ProtectedRoute.Guard | frontend/src/components/ProtectedRoute.tsx:13-21 | /login iff not authenticated; "/" iff authenticated on an admin route without being admin; children otherwise |
| ProtectedRoute.GuardDefault | frontend/src/components/ProtectedRoute.tsx:10 | without `requireAdmin`, every authenticated user sees the children, and everyone else goes to /login |
| ProtectedRoute.AdminRouteIsStricter | frontend/src/components/ProtectedRoute.tsx:17-19 | an admin route admits fewer states, differing only for authenticated non-admins |
| AddProductPage.SkipRun | frontend/src/pages/AddProductPage.tsx:38 | skips exactly the leading run outside [a-z0-9] |
| AddProductPage.Hyphenate | frontend/src/pages/AddProductPage.tsx:38 | each run outside [a-z0-9] becomes one '-': only slug characters and single dashes remain |
| AddProductPage.StripDashesShape | frontend/src/pages/AddProductPage.tsx:39 | removing one dash at each end leaves no dash at either end |
| AddProductPage.Slug | frontend/src/pages/AddProductPage.tsx:36-39 | the handle holds only a–z, 0–9 and single inner dashes |
| AddProductPage.HyphenateFixed | frontend/src/pages/AddProductPage.tsx:38 | a text of slug characters and single dashes is unchanged by the replacement |
| AddProductPage.LowerOfSlug | frontend/src/pages/AddProductPage.tsx:37 | a handle is already lower case |
| AddProductPage.SlugIdempotent | frontend/src/pages/AddProductPage.tsx:36-39 | slugging a slug returns it unchanged |
| AddProductPage.SeparatorsOnly | frontend/src/pages/AddProductPage.tsx:36-39 | a title without letters or digits slugs to "" |
| AddProductPage.VendorFor | frontend/src/pages/AddProductPage.tsx:44 | the company when non-empty; "undefined undefined" without a user; never empty |
| AddProductPage.SubmitPayloadShape | frontend/src/pages/AddProductPage.tsx:41-49 | the sent handle is the title's slug whatever the form held; no variants, images or options; published; the form's other fields kept |
| AddProductPage.AddTag | frontend/src/pages/AddProductPage.tsx:68-76 | the trimmed input is appended and the input cleared iff it is non-empty and new; otherwise nothing changes |
| AddProductPage.RemoveTag | frontend/src/pages/AddProductPage.tsx:78-83 | the tag is gone and every other tag stays |
| AddProductPage.RemoveTagConcat | frontend/src/pages/AddProductPage.tsx:81 | removal distributes over concatenation, so the other tags keep their order |
| AddProductPage.RemoveAbsent | frontend/src/pages/AddProductPage.tsx:81 | removing an absent tag changes nothing |
| AddProductPage.AddTagKeepsGood | frontend/src/pages/AddProductPage.tsx:68-76 | adding keeps the list free of blanks, untrimmed tags and duplicates |
| AddProductPage.RemoveKeepsDistinct | frontend/src/pages/AddProductPage.tsx:78-83 | removing keeps the tags distinct |
| AddProductPage.RemoveTagKeepsGood | frontend/src/pages/AddProductPage.tsx:78-83 | removing keeps the list free of blanks and duplicates |
| AddProductPage.AddThenRemove | frontend/src/pages/AddProductPage.tsx:68-83 | removing a tag just added restores the list |
| ProductApiClient.TextArg | frontend/src/services/productService.ts:31-33 | a text filter passes iff present and non-empty |
| ProductApiClient.NumberArg | frontend/src/services/productService.ts:34-35 | a number filter passes iff present, non-zero and not `NaN`; its text is `toString()` |
| ProductApiClient.FlagArg | frontend/src/services/productService.ts:36 | `inStock` passes iff true, as "true" |
| ProductApiClient.ListArg | frontend/src/services/productService.ts:37 | any present array passes, even an empty one, joined by ',' |
| ProductApiClient.Param | frontend/src/services/productService.ts:31-38 | a guarded `append` adds at most one pair |
| ProductApiClient.SearchQuerySplit | frontend/src/services/productService.ts:29-43 | the query is the filter part followed by the four fixed parameters |
| ProductApiClient.AppendIf | frontend/src/services/productService.ts:31-38 | in place: the guarded pair, if any, is added at the end |
| ProductApiClient.SearchProductsQuery | frontend/src/services/productService.ts:24-46 | the parameters built are exactly the specified search query |
| ProductApiClient.FilterQueryGet | frontend/src/services/productService.ts:31-38 | each filter name reads back the value its guard lets through |
| ProductApiClient.SearchQueryValues | frontend/src/services/productService.ts:31-43 | in the whole query each filter name still reads back that value |
| ProductApiClient.SearchQueryEnds | frontend/src/services/productService.ts:40-43 | sortField, sortDirection, page and limit close the query, in that order, after at most eight filters |
| ProductApiClient.FalsyFiltersDropped | frontend/src/services/productService.ts:31-37 | priceMin 0 or `NaN`, inStock false and an empty search are dropped; an empty tag list is sent as "" |
| ProductApiClient.GetProductCountQuery | frontend/src/services/productService.ts:103-112 | the parameters built are exactly the specified count query |
| ProductApiClient.CountQueryAgrees | frontend/src/services/productService.ts:103-112 | search, category, vendor and status are forwarded as in a search; nothing else |
| ProductApiClient.CountWithoutFilters | frontend/src/services/productService.ts:103-112 | without filters the count query is empty |

## Left out

- Controllers, `Program.cs`, migrations, the data seeder, logging and the HTTP layer are glue. The service outcomes carry the behaviour; a thrown exception is an `Err` value.
- BCrypt and JWT are foreign libraries, so they are parameters: `Crypto` (hash, verify) and `Tokens`. Salting, token contents and signatures are not modelled.
- `Guid.NewGuid()` becomes an id parameter or a `newGuid` function, and `DateTime.UtcNow` becomes a `now` parameter read once per call. The source reads the clock several times, for example for `CreatedAt` and `UpdatedAt`, and those reads may differ by ticks.
- Concurrency and async interleaving are not modelled: each call runs alone and a save is atomic.
- Text.ToLower: case folding is ASCII only. That is what SQLite's `lower()` does in the translated queries. In-memory .NET `ToLower` and JavaScript `toLowerCase` also fold non-ASCII letters (for example 'İ' or the Kelvin sign).
- Query translation by EF Core is not modelled; filters are modelled as if evaluated on the rows. The provider's actual behaviour is not captured for:
  - a filter over the computed `FullName` property in the user and order searches, which is not a mapped column;
  - comparison, ordering and `SUM` of decimal amounts on SQLite, which depend on the EF Core version;
  - the tag filters over the value-converted `Tags` column (ProductRepository.cs:101, 144, 263 and 306), which EF Core cannot translate, so the query likely fails instead of filtering.
- Query.Page and Query.PageStart: `(page - 1) * pageSize` is exact here. In the source it is 32-bit arithmetic that can overflow for huge page numbers.
- Query.TotalPages: it follows `Math.Ceiling` on a double for sizes in 32-bit range. It does not model the `(int)` cast of infinity or NaN for a zero page size, modelled as no value.
- ProductService.MapToDto: the DTO carries the exact `TotalInventory`. When `CheckedTotalInventory` is none the source throws `OverflowException`, and every service call that maps that product fails; that failure is not modelled.
- TotalInventory and TotalItems: they are the exact sums. The getters as C# runs them are `CheckedTotalInventory` and `CheckedTotalItems`, and nothing else in the model reads those.
- OrderRepository.GetTotalRevenueAsync: the sum is exact. The overflow exception of `decimal` beyond its range is not modelled.
- OrderNumbers.DatePrefix: `ToString("yyyyMMdd")` formats with the calendar of the current culture (a Thai culture gives a Buddhist-era year, for example). The model uses the Gregorian calendar only.
- OrderNumbers.TryParseInt32: it does not model trailing '\0' characters, which `NumberStyles.Integer` also accepts. It does not model culture-specific signs.
- UserService.LoginAsync and UserService.RefreshTokenAsync: `now + 7 days` is exact. The `ArgumentOutOfRangeException` of `AddDays` near the end of year 9999 is not modelled.
- ProductEntities.Product.GetVariant: `GetVariantById` (Product.cs:68) is not modelled. Nothing in the core calls it.
- `ExistsAsync` and `GetAllAsync` of the product, order and user repositories, and `OrderRepository.UpdateAsync`, are plain table reads and writes the services modelled here do not use. The refresh-token lookup reads `GetAllAsync`, whose `Orders` include makes EF Core order the rows by user key: `UserService.TokenOwner` takes the least key, and a `Guid` key is compared as a number here where SQLite compares its text.
- UserRepository: these operations are not modelled. They are filter-and-page or filter-and-count queries of the same shape as the modelled ones, and the modelled services do not use them:
  - `GetByRoleAsync`, `GetByStatusAsync`, `GetActiveUsersAsync`, `GetAdminsAsync`;
  - `GetUsersCreatedInDateRangeAsync`, `GetUserCountByRoleAsync`, `GetUserCountByStatusAsync`;
  - `GetByEmailAndPasswordAsync`.
- ProductService.GetCountAsync repeats `GetProductCountAsync` line for line. It is defined as that function and has no contract of its own.
- ProductService.DtoConsistent: the DTO fields that are plain copies are not listed one by one.
- Client numbers are integers or `NaN`. `parseFloat` fractions, `toFixed(2)` price formatting, `Infinity` from `parseInt` and precision beyond 2^53 are not modelled.
- ProductsPage.WithFilter: JavaScript lists integer-like property names before other names. Filter keys here are never integer-like, so insertion order is modelled. The initial filter state read from the address (ProductsPage.tsx:12-19) is not modelled.
- URLSearchParams percent-encoding, `toString()` and the HTTP request that carries the query are not modelled: a query is its list of pairs.
- The React rendering, state hooks, navigation and toasts of the pages are not modelled. Only the values they compute are.

## Findings

| source | as written | input that shows it | evidently intended | confidence | as-written member | corrected member |
|---|---|---|---|---|---|---|
| src/WholesaleEcommerce.Infrastructure/Repositories/OrderRepository.cs:239-250 | the last order of the day is the ordinal (text) maximum of its number, then its suffix + 1 | orders `20261014` + "9999" and `20261014` + "10000" exist: the text maximum is ...9999, so the generator returns ...10000, which is taken and fails the unique index | the next number after the numerically greatest sequence of the day, never one already taken | not executed | OrderRepository.NumberCollidesAfter9999 | OrderRepository.GenerateOrderNumberNumeric |
