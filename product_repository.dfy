/**
 * The product repository over the in-memory store: lookups, the filtered, sorted
 * and paged search, the matching count, the featured and related lists, and the
 * writes (add, update, delete, inventory adjustment).
 */
module ProductRepository {
  import opened Wrappers
  import opened Primitives
  import opened Text
  import Query
  import opened ProductEntities
  import opened OrderEntities
  import opened DbContext

  /** The product search filters; `sortDescending` defaults to true. */
  datatype ProductSearchCriteria = ProductSearchCriteria(
    search: Option<string>,
    category: Option<string>,
    vendor: Option<string>,
    minPrice: Option<Money>,
    maxPrice: Option<Money>,
    inStock: Option<bool>,
    status: Option<string>,
    tags: Option<seq<string>>,
    sortBy: Option<string>,
    sortDescending: bool)

  const NoCriteria := ProductSearchCriteria(None, None, None, None, None, None, None, None, None, true)

  // ---------------------------------------------------------------------------
  // Lookups

  /** The product with primary key `id`. */
  function GetByIdAsync(ps: seq<Product>, id: Guid): (r: Option<Product>)
    ensures r.None? <==> forall i :: 0 <= i < |ps| ==> ps[i].id != id
    ensures r.Some? ==> r.value in ps && r.value.id == id
  {
    match Query.FirstMatch(ps, (p: Product) => p.id == id)
    case Some(i) => Some(ps[i])
    case None => None
  }

  /** The product whose handle equals `handle` exactly. */
  function GetByHandleAsync(ps: seq<Product>, handle: string): (r: Option<Product>)
    ensures r.None? <==> forall i :: 0 <= i < |ps| ==> ps[i].handle != handle
    ensures r.Some? ==> r.value in ps && r.value.handle == handle
  {
    match Query.FirstMatch(ps, (p: Product) => p.handle == handle)
    case Some(i) => Some(ps[i])
    case None => None
  }

  /** Some product has exactly this handle. */
  function ExistsByHandleAsync(ps: seq<Product>, handle: string): (r: bool)
    ensures r <==> exists i :: 0 <= i < |ps| && ps[i].handle == handle
  {
    GetByHandleAsync(ps, handle).Some?
  }

  /** In a valid store the handle identifies one product, which lookup by handle returns. */
  lemma HandleIdentifies(ps: seq<Product>, i: nat)
    requires ValidProducts(ps) && i < |ps|
    ensures GetByHandleAsync(ps, ps[i].handle) == Some(ps[i])
    ensures GetByIdAsync(ps, ps[i].id) == Some(ps[i])
  {
  }

  // ---------------------------------------------------------------------------
  // The search filter

  /** Lower-cased `term` occurs in the lower-cased title, description, vendor, type or a tag. */
  predicate MatchesSearch(p: Product, term: string)
  {
    var t := ToLower(term);
    Contains(ToLower(p.title), t) || Contains(ToLower(p.description), t) ||
    Contains(ToLower(p.vendor), t) || Contains(ToLower(p.productType), t) ||
    exists i :: 0 <= i < |p.tags| && Contains(ToLower(p.tags[i]), t)
  }

  predicate SomeVariantAtLeast(p: Product, min: Money)
  {
    exists i :: 0 <= i < |p.variants| && p.variants[i].price >= min
  }

  predicate SomeVariantAtMost(p: Product, max: Money)
  {
    exists i :: 0 <= i < |p.variants| && p.variants[i].price <= max
  }

  predicate SomeVariantInStock(p: Product)
  {
    exists i :: 0 <= i < |p.variants| && p.variants[i].inventoryQuantity > 0
  }

  /** Some requested tag is one of the product's tags, compared exactly. */
  predicate SharesTag(p: Product, tags: seq<string>)
  {
    exists i :: 0 <= i < |tags| && tags[i] in p.tags
  }

  /** The conjunction of every filter the criteria switch on. */
  predicate Matches(c: ProductSearchCriteria, p: Product)
  {
    && (IsNullOrEmpty(c.search) || MatchesSearch(p, c.search.value))
    && (IsNullOrEmpty(c.category) || EqualsIgnoreCase(p.productType, c.category.value))
    && (IsNullOrEmpty(c.vendor) || EqualsIgnoreCase(p.vendor, c.vendor.value))
    && (c.minPrice.None? || SomeVariantAtLeast(p, c.minPrice.value))
    && (c.maxPrice.None? || SomeVariantAtMost(p, c.maxPrice.value))
    && (c.inStock.None? || (if c.inStock.value then SomeVariantInStock(p) else !SomeVariantInStock(p)))
    && (IsNullOrEmpty(c.status) || p.status == c.status.value)
    && (c.tags.None? || c.tags.value == [] || SharesTag(p, c.tags.value))
  }

  /** The products passing every filter, in store order (the query before sorting). */
  function Filtered(ps: seq<Product>, c: ProductSearchCriteria): (r: seq<Product>)
    ensures forall p :: p in r <==> p in ps && Matches(c, p)
  {
    Query.FilterBy(ps, MatchFn(c))
  }

  function MatchFn(c: ProductSearchCriteria): Product -> bool
  {
    (p: Product) => Matches(c, p)
  }

  // ---------------------------------------------------------------------------
  // Sorting

  /**
   * The sort column selected by `SortBy` (lower-cased): title, least variant price
   * (SQL MIN over no variants is NULL), creation or update time; anything else,
   * or no `SortBy`, sorts by creation time.
   */
  function SortKey(sortBy: Option<string>, p: Product): Query.Key
  {
    var s := if sortBy.None? then "" else ToLower(sortBy.value);
    if s == "title" then Query.Text(p.title)
    else if s == "price" then (if p.variants == [] then Query.Null else Query.Num(p.MinPrice()))
    else if s == "updatedat" then Query.Num(p.updatedAt)
    else Query.Num(p.createdAt)
  }

  /** An unknown sort field falls back to creation time; the field name ignores case. */
  lemma SortKeyFallback(sortBy: string, p: Product)
    ensures ToLower(sortBy) !in {"title", "price", "updatedat"} ==>
              SortKey(Some(sortBy), p) == SortKey(None, p) == Query.Num(p.createdAt)
    ensures SortKey(Some(ToLower(sortBy)), p) == SortKey(Some(sortBy), p)
  {
    ToLowerIdempotent(sortBy);
  }

  function SearchKey(c: ProductSearchCriteria): Product -> Query.Key
  {
    (p: Product) => SortKey(c.sortBy, p)
  }

  // ---------------------------------------------------------------------------
  // Search and count

  /**
   * `SearchAsync`: the count of matching products (taken before paging), and page
   * `page` of them sorted by the selected key in the requested direction.
   */
  function SearchAsync(ps: seq<Product>, c: ProductSearchCriteria, page: int, pageSize: int)
    : (r: Query.SearchResult<Product>)
    ensures Query.IsPageOfOrdering(r, Filtered(ps, c), SearchKey(c), c.sortDescending, page, pageSize)
  {
    var matching := Filtered(ps, c);
    var ordered := Query.SortBy(matching, SearchKey(c), c.sortDescending);
    Query.SearchResult(Query.Page(ordered, page, pageSize), |matching|)
  }

  /** `GetCountAsync`: every product without criteria, else the matching ones. */
  function GetCountAsync(ps: seq<Product>, c: Option<ProductSearchCriteria>): (r: nat)
    ensures r <= |ps|
    ensures c.None? ==> r == |ps|
  {
    if c.None? then |ps| else |Filtered(ps, c.value)|
  }

  /** The count agrees with the total a search reports for the same filters, on any page. */
  lemma CountMatchesSearch(ps: seq<Product>, c: ProductSearchCriteria, page: int, pageSize: int)
    ensures GetCountAsync(ps, Some(c)) == SearchAsync(ps, c, page, pageSize).totalCount
  {
  }

  /** Every product a search returns passes every filter; the page is sorted and holds the rows the limit lets through. */
  lemma SearchResultsMatch(ps: seq<Product>, c: ProductSearchCriteria, page: int, pageSize: int)
    ensures var r := SearchAsync(ps, c, page, pageSize);
            (forall p :: p in r.items ==> p in ps && Matches(c, p)) &&
            |r.items| == Query.PageLength(|Filtered(ps, c)|, page, pageSize) &&
            Query.SortedBy(r.items, SearchKey(c), c.sortDescending)
  {
    var r := SearchAsync(ps, c, page, pageSize);
    Query.PageOfOrderingFacts(r, Filtered(ps, c), SearchKey(c), c.sortDescending, page, pageSize);
    forall p | p in r.items ensures p in ps && Matches(c, p) {
      assert p in multiset(r.items);
      assert p in multiset(Filtered(ps, c));
    }
  }

  /** `InStock = true` and `InStock = false` split the products between them. */
  lemma InStockPartitions(ps: seq<Product>, c: ProductSearchCriteria)
    requires c.inStock.None?
    ensures |Filtered(ps, c.(inStock := Some(true)))| + |Filtered(ps, c.(inStock := Some(false)))|
            == |Filtered(ps, c)|
  {
    var yes := (p: Product) => SomeVariantInStock(p);
    var no := (p: Product) => !SomeVariantInStock(p);
    forall p: Product ensures MatchFn(c.(inStock := Some(true)))(p) == (MatchFn(c)(p) && yes(p)) {
      InStockSplitsMatch(c, p);
    }
    forall p: Product ensures MatchFn(c.(inStock := Some(false)))(p) == (MatchFn(c)(p) && no(p)) {
      InStockSplitsMatch(c, p);
    }
    Query.FilterChain(ps, MatchFn(c), yes, MatchFn(c.(inStock := Some(true))));
    Query.FilterChain(ps, MatchFn(c), no, MatchFn(c.(inStock := Some(false))));
    Query.FilterPartition(Filtered(ps, c), yes, no);
  }

  lemma InStockSplitsMatch(c: ProductSearchCriteria, p: Product)
    requires c.inStock.None?
    ensures Matches(c.(inStock := Some(true)), p) == (Matches(c, p) && SomeVariantInStock(p))
    ensures Matches(c.(inStock := Some(false)), p) == (Matches(c, p) && !SomeVariantInStock(p))
  {
  }

  /** The search term ignores case. */
  lemma SearchIgnoresCase(p: Product, term: string)
    ensures MatchesSearch(p, term) == MatchesSearch(p, ToLower(term))
  {
    ToLowerIdempotent(term);
  }

  /** The status filter is case-sensitive: "Active" does not select an "active" product. */
  lemma StatusFilterIsExact(p: Product)
    requires p.status == "active"
    ensures !Matches(NoCriteria.(status := Some("Active")), p)
    ensures Matches(NoCriteria.(status := Some("active")), p)
  {
  }

  /**
   * Each price bound is satisfied on its own: a product with variants at 10 and 50
   * passes `MinPrice = 20, MaxPrice = 40` though no variant lies between them.
   */
  lemma PriceBoundsAreIndependent()
    ensures var v := ProductVariant(1, "a", "A", 1000, None, 1, None, None, None, None, None, None, 7);
            var p := Product(7, "T", "", "V", "PT", [], [v, v.(id := 2, sku := "B", price := 5000)], [], [],
                             "active", 0, 0, "t", None, None, None);
            Matches(NoCriteria.(minPrice := Some(2000), maxPrice := Some(4000)), p) &&
            forall i :: 0 <= i < |p.variants| ==> !(2000 <= p.variants[i].price <= 4000)
  {
    var v := ProductVariant(1, "a", "A", 1000, None, 1, None, None, None, None, None, None, 7);
    var w := v.(id := 2, sku := "B", price := 5000);
    var p := Product(7, "T", "", "V", "PT", [], [v, w], [], [], "active", 0, 0, "t", None, None, None);
    assert p.variants[1].price >= 2000 && p.variants[0].price <= 4000;
  }

  // ---------------------------------------------------------------------------
  // Fixed lists

  function NewestFirst(): Product -> Query.Key
  {
    (p: Product) => Query.Num(p.createdAt)
  }

  /** A page of the products whose type equals `category` ignoring case, newest first. */
  function GetByCategoryAsync(ps: seq<Product>, category: string, page: int, pageSize: int): (r: seq<Product>)
    ensures exists ordered :: Query.IsOrdering(ordered, Query.FilterBy(ps, (p: Product) => EqualsIgnoreCase(p.productType, category)),
                                               NewestFirst(), true) &&
                              r == Query.Page(ordered, page, pageSize)
  {
    var matching := Query.FilterBy(ps, (p: Product) => EqualsIgnoreCase(p.productType, category));
    Query.Page(Query.SortBy(matching, NewestFirst(), true), page, pageSize)
  }

  /** A page of the products whose vendor equals `vendor` ignoring case, newest first. */
  function GetByVendorAsync(ps: seq<Product>, vendor: string, page: int, pageSize: int): (r: seq<Product>)
    ensures exists ordered :: Query.IsOrdering(ordered, Query.FilterBy(ps, (p: Product) => EqualsIgnoreCase(p.vendor, vendor)),
                                               NewestFirst(), true) &&
                              r == Query.Page(ordered, page, pageSize)
  {
    var matching := Query.FilterBy(ps, (p: Product) => EqualsIgnoreCase(p.vendor, vendor));
    Query.Page(Query.SortBy(matching, NewestFirst(), true), page, pageSize)
  }

  /** A category page holds products of that type (ignoring case) only, newest first, as many as the limit lets through. */
  lemma CategoryFacts(ps: seq<Product>, category: string, page: int, pageSize: int)
    ensures var r := GetByCategoryAsync(ps, category, page, pageSize);
            (forall p :: p in r ==> p in ps && EqualsIgnoreCase(p.productType, category)) &&
            |r| == Query.PageLength(|Query.FilterBy(ps, (p: Product) => EqualsIgnoreCase(p.productType, category))|, page, pageSize) &&
            Query.SortedBy(r, NewestFirst(), true)
  {
    var r := GetByCategoryAsync(ps, category, page, pageSize);
    var matching := Query.FilterBy(ps, (p: Product) => EqualsIgnoreCase(p.productType, category));
    Query.PageOfOrderingFacts(Query.SearchResult(r, |matching|), matching, NewestFirst(), true, page, pageSize);
  }

  /** A vendor page holds products of that vendor (ignoring case) only, newest first, as many as the limit lets through. */
  lemma VendorFacts(ps: seq<Product>, vendor: string, page: int, pageSize: int)
    ensures var r := GetByVendorAsync(ps, vendor, page, pageSize);
            (forall p :: p in r ==> p in ps && EqualsIgnoreCase(p.vendor, vendor)) &&
            |r| == Query.PageLength(|Query.FilterBy(ps, (p: Product) => EqualsIgnoreCase(p.vendor, vendor))|, page, pageSize) &&
            Query.SortedBy(r, NewestFirst(), true)
  {
    var r := GetByVendorAsync(ps, vendor, page, pageSize);
    var matching := Query.FilterBy(ps, (p: Product) => EqualsIgnoreCase(p.vendor, vendor));
    Query.PageOfOrderingFacts(Query.SearchResult(r, |matching|), matching, NewestFirst(), true, page, pageSize);
  }

  /** Up to `limit` active products, newest first. */
  function GetFeaturedAsync(ps: seq<Product>, limit: int): (r: seq<Product>)
    ensures exists ordered :: Query.IsOrdering(ordered, Query.FilterBy(ps, (p: Product) => p.status == "active"),
                                               NewestFirst(), true) &&
                              r == Query.Page(ordered, 1, limit)
  {
    var matching := Query.FilterBy(ps, (p: Product) => p.status == "active");
    Query.Page(Query.SortBy(matching, NewestFirst(), true), 1, limit)
  }

  /**
   * Featured products are active and come newest first; a non-negative limit
   * bounds them, and a negative one (no `LIMIT` bound in SQLite) keeps every
   * active product.
   */
  lemma FeaturedFacts(ps: seq<Product>, limit: int)
    ensures var r := GetFeaturedAsync(ps, limit);
            (forall p :: p in r ==> p in ps && p.status == "active") &&
            (limit >= 0 ==> |r| <= limit) &&
            (limit < 0 ==> forall p :: p in ps && p.status == "active" ==> p in r) &&
            Query.SortedBy(r, NewestFirst(), true)
  {
    var r := GetFeaturedAsync(ps, limit);
    var matching := Query.FilterBy(ps, (p: Product) => p.status == "active");
    Query.PageOfOrderingFacts(Query.SearchResult(r, |matching|), matching, NewestFirst(), true, 1, limit);
  }

  /** Other active products sharing the type or the vendor (exactly) with `of`. */
  predicate IsRelated(of: Product, p: Product)
  {
    p.id != of.id && p.status == "active" && (p.productType == of.productType || p.vendor == of.vendor)
  }

  /** Up to `limit` products related to the product with id `productId`; none for an unknown id. */
  function GetRelatedAsync(ps: seq<Product>, productId: Guid, limit: int): (r: seq<Product>)
    ensures GetByIdAsync(ps, productId).None? ==> r == []
    ensures GetByIdAsync(ps, productId).Some? ==>
              exists ordered :: Query.IsOrdering(ordered, Query.FilterBy(ps, (p: Product) => IsRelated(GetByIdAsync(ps, productId).value, p)),
                                                 NewestFirst(), true) &&
                                r == Query.Page(ordered, 1, limit)
  {
    match GetByIdAsync(ps, productId)
    case None => []
    case Some(of) =>
      Query.Page(Query.SortBy(Query.FilterBy(ps, (p: Product) => IsRelated(of, p)), NewestFirst(), true), 1, limit)
  }

  /**
   * Related products exclude the product itself, are active, share type or
   * vendor, and come newest first; a non-negative limit bounds them, and a
   * negative one keeps every related product.
   */
  lemma RelatedFacts(ps: seq<Product>, productId: Guid, limit: int)
    ensures var r := GetRelatedAsync(ps, productId, limit);
            (limit >= 0 ==> |r| <= limit) &&
            (limit < 0 && GetByIdAsync(ps, productId).Some? ==>
               forall p :: p in ps && IsRelated(GetByIdAsync(ps, productId).value, p) ==> p in r) &&
            Query.SortedBy(r, NewestFirst(), true) &&
            forall p :: p in r ==> p in ps && p.id != productId && p.status == "active" &&
                                   (p.productType == GetByIdAsync(ps, productId).value.productType ||
                                    p.vendor == GetByIdAsync(ps, productId).value.vendor)
  {
    var r := GetRelatedAsync(ps, productId, limit);
    if GetByIdAsync(ps, productId).Some? {
      var of := GetByIdAsync(ps, productId).value;
      var matching := Query.FilterBy(ps, (p: Product) => IsRelated(of, p));
      Query.PageOfOrderingFacts(Query.SearchResult(r, |matching|), matching, NewestFirst(), true, 1, limit);
    }
  }

  // ---------------------------------------------------------------------------
  // Inventory

  /** Index of the product with primary key `id`. */
  function IndexOfId(ps: seq<Product>, id: Guid): (r: Option<nat>)
    ensures r.None? <==> forall i :: 0 <= i < |ps| ==> ps[i].id != id
    ensures r.Some? ==> r.value < |ps| && ps[r.value].id == id && forall j :: 0 <= j < r.value ==> ps[j].id != id
  {
    Query.FirstMatch(ps, (p: Product) => p.id == id)
  }

  /** The stock of the first variant of `productId` with `sku`, or 0 when there is none. */
  function GetInventoryAsync(ps: seq<Product>, productId: Guid, sku: string): (r: int)
    ensures IndexOfId(ps, productId).None? ==> r == 0
    ensures IndexOfId(ps, productId).Some? ==>
              var p := ps[IndexOfId(ps, productId).value];
              r == (if p.GetVariant(sku).Some? then p.GetVariant(sku).value.inventoryQuantity else 0)
  {
    match IndexOfId(ps, productId)
    case None => 0
    case Some(k) =>
      match SkuIndex(ps[k].variants, sku)
      case None => 0
      case Some(i) => ps[k].variants[i].inventoryQuantity
  }

  /** The store after adjusting the stock of `productId`'s first variant carrying `sku`. */
  function WithInventory(ps: seq<Product>, productId: Guid, sku: string, quantity: int): seq<Product>
  {
    match IndexOfId(ps, productId)
    case None => ps
    case Some(k) => ps[k := ps[k].(variants := AdjustedVariants(ps[k].variants, sku, quantity))]
  }

  lemma AdjustedVariantsLinked(p: Product, sku: string, quantity: int)
    requires ProductRowsLinked(p)
    ensures ProductRowsLinked(p.(variants := AdjustedVariants(p.variants, sku, quantity)))
    ensures VariantIds([p.(variants := AdjustedVariants(p.variants, sku, quantity))]) == VariantIds([p])
    ensures VariantKeys(p.(variants := AdjustedVariants(p.variants, sku, quantity))) == VariantKeys(p)
  {
    var vs := AdjustedVariants(p.variants, sku, quantity);
    AdjustedVariantsFrame(p.variants, sku, quantity);
    var q := p.(variants := vs);
    assert |VariantKeys(q)| == |VariantKeys(p)|;
    assert forall i :: 0 <= i < |vs| ==> VariantKeys(q)[i] == VariantKeys(p)[i];
    forall v | v in vs ensures v.productId == p.id {
      var i :| 0 <= i < |vs| && vs[i] == v;
      assert p.variants[i] in p.variants;
    }
    SameVariantKeys(p, q);
    SameVariantKeys(q, p);
  }

  /** Two products whose variants carry the same keys position by position have the same variant keys. */
  lemma SameVariantKeys(p: Product, q: Product)
    requires |p.variants| == |q.variants|
    requires forall i :: 0 <= i < |p.variants| ==> p.variants[i].id == q.variants[i].id
    ensures VariantIds([p]) <= VariantIds([q])
  {
    forall x | x in VariantIds([p]) ensures x in VariantIds([q]) {
      var pp, v :| pp in [p] && v in pp.variants && v.id == x;
      var i :| 0 <= i < |p.variants| && p.variants[i] == v;
      assert q in [q] && q.variants[i] in q.variants;
    }
  }

  /** Replacing one row by a row with the same primary key keeps the set of product keys. */
  lemma ReplaceKeepsProductIds(ps: seq<Product>, k: nat, q: Product)
    requires k < |ps| && q.id == ps[k].id
    ensures ProductIds(ps[k := q]) == ProductIds(ps)
  {
    var r := ps[k := q];
    forall x | x in ProductIds(ps) ensures x in ProductIds(r) {
      var p :| p in ps && p.id == x;
      var i :| 0 <= i < |ps| && ps[i] == p;
      assert r[i] in r && r[i].id == x;
    }
    forall x | x in ProductIds(r) ensures x in ProductIds(ps) {
      var p :| p in r && p.id == x;
      var i :| 0 <= i < |r| && r[i] == p;
      assert ps[i] in ps && ps[i].id == x;
    }
  }

  /** Stores that differ in row `k` only, where `b`'s row has at least `a`'s variant keys. */
  lemma VariantIdsCovered(a: seq<Product>, b: seq<Product>, k: nat)
    requires |a| == |b| && k < |a|
    requires forall i :: 0 <= i < |a| && i != k ==> a[i] == b[i]
    requires VariantIds([a[k]]) <= VariantIds([b[k]])
    ensures VariantIds(a) <= VariantIds(b)
  {
    forall x | x in VariantIds(a) ensures x in VariantIds(b) {
      var p, v :| p in a && v in p.variants && v.id == x;
      var i :| 0 <= i < |a| && a[i] == p;
      if i == k {
        assert x in VariantIds([a[k]]);
        var q, w :| q in [b[k]] && w in q.variants && w.id == x;
        assert b[k] in b;
      } else {
        assert b[i] in b;
      }
    }
  }

  lemma WithInventoryValid(ps: seq<Product>, os: seq<Order>, us: seq<UserEntities.User>, productId: Guid, sku: string, quantity: int)
    requires ValidProducts(ps) && ValidOrders(os, us, ps)
    ensures ValidProducts(WithInventory(ps, productId, sku, quantity))
    ensures ValidOrders(os, us, WithInventory(ps, productId, sku, quantity))
  {
    if IndexOfId(ps, productId).Some? {
      var k := IndexOfId(ps, productId).value;
      var q := ps[k].(variants := AdjustedVariants(ps[k].variants, sku, quantity));
      var r := ps[k := q];
      assert WithInventory(ps, productId, sku, quantity) == r;
      AdjustedVariantsLinked(ps[k], sku, quantity);
      ReplaceKeepsProductsValid(ps, k, q);
      ReplaceKeepsProductIds(ps, k, q);
      VariantIdsCovered(ps, r, k);
      OrdersValidOnMoreKeys(os, us, ps, r);
    }
  }

  /**
   * Replacing row `k` by a linked row with the same key, a handle no other row
   * holds and the same child keys keeps the products valid.
   */
  lemma ReplaceKeepsProductsValid(ps: seq<Product>, k: nat, q: Product)
    requires ValidProducts(ps) && k < |ps| && q.id == ps[k].id && ProductRowsLinked(q)
    requires forall i :: 0 <= i < |ps| && i != k ==> ps[i].handle != q.handle
    requires VariantKeys(q) == VariantKeys(ps[k]) && ImageKeys(q) == ImageKeys(ps[k]) && OptionKeys(q) == OptionKeys(ps[k])
    ensures ValidProducts(ps[k := q])
  {
    ReplaceKeepsChildKeys(ps, k, q);
    var r := ps[k := q];
    forall i, j | 0 <= i < j < |r| ensures r[i].id != r[j].id && r[i].handle != r[j].handle {
      if i != k && j != k {
        assert r[i] == ps[i] && r[j] == ps[j];
      }
    }
  }

  /** Orders stay valid against a store holding at least the same product and variant keys. */
  lemma OrdersValidOnMoreKeys(os: seq<Order>, us: seq<UserEntities.User>, ps: seq<Product>, ps2: seq<Product>)
    requires ValidOrders(os, us, ps) && ProductIds(ps) <= ProductIds(ps2) && VariantIds(ps) <= VariantIds(ps2)
    ensures ValidOrders(os, us, ps2)
  {
    forall i | 0 <= i < |os| ensures ItemsResolve(os[i], ps2) {
      assert ItemsResolve(os[i], ps);
    }
  }

  /**
   * `UpdateInventoryAsync`: the first variant of `productId` carrying `sku` gets
   * `max(0, quantity + delta)`; no such variant means no change.
   */
  method UpdateInventoryAsync(db: Database, productId: Guid, sku: string, quantity: int)
    requires db.Valid()
    modifies db`products
    ensures db.products == WithInventory(old(db.products), productId, sku, quantity)
    ensures db.Valid()
  {
    WithInventoryValid(db.products, db.orders, db.users, productId, sku, quantity);
    var found := IndexOfId(db.products, productId);
    if found.Some? {
      var k := found.value;
      var p := db.products[k];
      db.products := db.products[k := p.(variants := AdjustedVariants(p.variants, sku, quantity))];
    }
  }

  /** Adjusting stock keeps every SKU in place, so SKU lookups find the same positions. */
  lemma AdjustedSkuIndex(vs: seq<ProductVariant>, sku: string, quantity: int, lookup: string)
    ensures SkuIndex(AdjustedVariants(vs, sku, quantity), lookup) == SkuIndex(vs, lookup)
  {
    AdjustedVariantsFrame(vs, sku, quantity);
  }

  lemma IndexOfIdAfterInventory(ps: seq<Product>, productId: Guid, sku: string, quantity: int, id: Guid)
    ensures IndexOfId(WithInventory(ps, productId, sku, quantity), id) == IndexOfId(ps, id)
  {
    match IndexOfId(ps, productId)
    case None =>
    case Some(k) =>
      var after := WithInventory(ps, productId, sku, quantity);
      assert after == ps[k := after[k]] && after[k].id == ps[k].id;
      SameKeysSameIndex(ps, after, id);
  }

  /** Stores with the same key in every position find every key at the same position. */
  lemma SameKeysSameIndex(a: seq<Product>, b: seq<Product>, id: Guid)
    requires |a| == |b| && forall i :: 0 <= i < |a| ==> a[i].id == b[i].id
    ensures IndexOfId(a, id) == IndexOfId(b, id)
  {
    match IndexOfId(a, id)
    case None =>
    case Some(j) =>
      assert b[j].id == id;
  }

  /** After the adjustment, reading the stock back gives the floored sum; other SKUs and products keep theirs. */
  lemma InventoryAfterUpdate(ps: seq<Product>, productId: Guid, sku: string, quantity: int, otherSku: string)
    ensures var after := WithInventory(ps, productId, sku, quantity);
            && GetInventoryAsync(after, productId, sku) ==
                 (if IndexOfId(ps, productId).Some? && ps[IndexOfId(ps, productId).value].HasVariant(sku)
                  then AdjustQuantity(GetInventoryAsync(ps, productId, sku), quantity) else 0)
            && (otherSku != sku ==> GetInventoryAsync(after, productId, otherSku) == GetInventoryAsync(ps, productId, otherSku))
  {
    IndexOfIdAfterInventory(ps, productId, sku, quantity, productId);
    if IndexOfId(ps, productId).Some? {
      var k := IndexOfId(ps, productId).value;
      AdjustedSkuIndex(ps[k].variants, sku, quantity, sku);
      AdjustedSkuIndex(ps[k].variants, sku, quantity, otherSku);
      AdjustedVariantsFrame(ps[k].variants, sku, quantity);
    }
  }

  /** Products other than `productId` are untouched by the adjustment. */
  lemma InventoryFrame(ps: seq<Product>, productId: Guid, sku: string, quantity: int)
    ensures var after := WithInventory(ps, productId, sku, quantity);
            |after| == |ps| && forall i :: 0 <= i < |ps| && ps[i].id != productId ==> after[i] == ps[i]
  {
  }

  // ---------------------------------------------------------------------------
  // Writes

  /**
   * `AddAsync`: inserts the product with its variants, images and options. A taken
   * primary key or handle, or a variant, image or option key that is already
   * stored or repeats within the product, fails the save and leaves the store as
   * it was.
   */
  method AddAsync(db: Database, product: Product) returns (r: Result<Product, DbError>)
    requires db.Valid()
    modifies db`products
    ensures r.Err? <==> product.id in ProductIds(old(db.products)) || ExistsByHandleAsync(old(db.products), product.handle) ||
                        !ChildKeysDistinct(old(db.products) + [product])
    ensures r.Ok? ==> r.value == product && db.products == old(db.products) + [StoredProduct(product)]
    ensures r.Err? ==> db.products == old(db.products)
    ensures db.Valid()
  {
    if exists i :: 0 <= i < |db.products| && db.products[i].id == product.id {
      return Err(UniqueViolation("PK_Products"));
    }
    if ExistsByHandleAsync(db.products, product.handle) {
      return Err(UniqueViolation("IX_Products_Handle"));
    }
    var added := db.products + [product];
    if !Distinct(Flatten(added, VariantKeys)) {
      return Err(UniqueViolation("PK_ProductVariants"));
    }
    if !Distinct(Flatten(added, ImageKeys)) {
      return Err(UniqueViolation("PK_ProductImages"));
    }
    if !Distinct(Flatten(added, OptionKeys)) {
      return Err(UniqueViolation("PK_ProductOptions"));
    }
    AddKeepsValid(db.products, db.orders, db.users, product);
    db.products := db.products + [StoredProduct(product)];
    r := Ok(product);
  }

  lemma AddKeepsValid(ps: seq<Product>, os: seq<Order>, us: seq<UserEntities.User>, product: Product)
    requires ValidProducts(ps) && ValidOrders(os, us, ps)
    requires forall i :: 0 <= i < |ps| ==> ps[i].id != product.id && ps[i].handle != product.handle
    requires ChildKeysDistinct(ps + [product])
    ensures ValidProducts(ps + [StoredProduct(product)]) && ValidOrders(os, us, ps + [StoredProduct(product)])
  {
    var r := ps + [StoredProduct(product)];
    StoredProductLinked(product);
    AddedChildKeys(ps, product);
    AppendKeepsProductsValid(ps, StoredProduct(product));
    assert ProductIds(ps) <= ProductIds(r) by {
      forall x | x in ProductIds(ps) ensures x in ProductIds(r) {
        var p :| p in ps && p.id == x;
        assert p in r;
      }
    }
    assert VariantIds(ps) <= VariantIds(r) by {
      forall x | x in VariantIds(ps) ensures x in VariantIds(r) {
        var p, v :| p in ps && v in p.variants && v.id == x;
        assert p in r;
      }
    }
    OrdersValidOnMoreKeys(os, us, ps, r);
  }

  /** A linked row with a fresh key and handle, whose child keys keep their tables unique, can be appended. */
  lemma AppendKeepsProductsValid(ps: seq<Product>, q: Product)
    requires ValidProducts(ps) && ProductRowsLinked(q) && ChildKeysDistinct(ps + [q])
    requires forall i :: 0 <= i < |ps| ==> ps[i].id != q.id && ps[i].handle != q.handle
    ensures ValidProducts(ps + [q])
  {
    var r := ps + [q];
    forall i, j | 0 <= i < j < |r| ensures r[i].id != r[j].id && r[i].handle != r[j].handle {
      assert r[i] == ps[i];
      if j < |ps| {
        assert r[j] == ps[j];
      }
    }
    forall i | 0 <= i < |r| ensures ProductRowsLinked(r[i]) {
      if i < |ps| {
        assert r[i] == ps[i];
      }
    }
  }

  /** The stored product's own columns after `UpdateAsync(product)`; its child rows stay as stored. */
  function UpdatedColumns(stored: Product, product: Product): Product
  {
    stored.(title := product.title, description := product.description, vendor := product.vendor,
            productType := product.productType, tags := Persisted(product.tags), status := product.status,
            createdAt := product.createdAt, updatedAt := product.updatedAt, handle := product.handle,
            publishedAt := product.publishedAt, seoTitle := product.seoTitle, seoDescription := product.seoDescription)
  }

  /**
   * `UpdateAsync`: saves the product's columns over the stored row with its id.
   * A missing row is a concurrency failure; a handle taken by another product
   * violates the unique index. Either way the store is unchanged.
   */
  method UpdateAsync(db: Database, product: Product) returns (r: Result<Product, DbError>)
    requires db.Valid()
    modifies db`products
    ensures r.Err? ==> db.products == old(db.products)
    ensures IndexOfId(old(db.products), product.id).None? ==> r == Err(ConcurrencyViolation)
    ensures r.Ok? ==> (r.value == product && IndexOfId(old(db.products), product.id).Some? &&
                       var k := IndexOfId(old(db.products), product.id).value;
                       db.products == old(db.products)[k := UpdatedColumns(old(db.products)[k], product)])
    ensures IndexOfId(old(db.products), product.id).Some? ==>
              (r.Err? <==> exists i :: 0 <= i < |old(db.products)| && old(db.products)[i].id != product.id &&
                                        old(db.products)[i].handle == product.handle)
    ensures db.Valid()
  {
    var found := IndexOfId(db.products, product.id);
    if found.None? {
      return Err(ConcurrencyViolation);
    }
    var k := found.value;
    if exists i :: 0 <= i < |db.products| && db.products[i].id != product.id && db.products[i].handle == product.handle {
      return Err(UniqueViolation("IX_Products_Handle"));
    }
    UpdateKeepsValid(db.products, db.orders, db.users, k, product);
    db.products := db.products[k := UpdatedColumns(db.products[k], product)];
    r := Ok(product);
  }

  lemma UpdateKeepsValid(ps: seq<Product>, os: seq<Order>, us: seq<UserEntities.User>, k: nat, product: Product)
    requires ValidProducts(ps) && ValidOrders(os, us, ps) && k < |ps| && ps[k].id == product.id
    requires forall i :: 0 <= i < |ps| && ps[i].id != product.id ==> ps[i].handle != product.handle
    ensures var r := ps[k := UpdatedColumns(ps[k], product)]; ValidProducts(r) && ValidOrders(os, us, r)
  {
    var q := UpdatedColumns(ps[k], product);
    var r := ps[k := q];
    assert forall i :: 0 <= i < |ps| && i != k ==> ps[i].id != product.id;
    ReplaceKeepsProductsValid(ps, k, q);
    ReplaceKeepsProductIds(ps, k, q);
    SameVariantKeys(ps[k], q);
    VariantIdsCovered(ps, r, k);
    OrdersValidOnMoreKeys(os, us, ps, r);
  }

  /** An order item points at the product or at one of its variants. */
  ghost predicate IsReferenced(os: seq<Order>, p: Product)
  {
    exists o, it :: o in os && it in o.orderItems &&
      (it.productId == p.id || it.productVariantId in VariantIds([p]))
  }

  /**
   * `DeleteAsync`: removes the product and, by cascade, its variants, images and
   * options. An unknown id does nothing; a product or variant some order item
   * references blocks the delete (restrict) and nothing changes.
   */
  method DeleteAsync(db: Database, id: Guid) returns (r: Result<(), DbError>)
    requires db.Valid()
    modifies db`products
    ensures IndexOfId(old(db.products), id).None? ==> r.Ok? && db.products == old(db.products)
    ensures IndexOfId(old(db.products), id).Some? ==>
              var k := IndexOfId(old(db.products), id).value;
              (r.Err? <==> IsReferenced(db.orders, old(db.products)[k])) &&
              (r.Err? ==> db.products == old(db.products)) &&
              (r.Ok? ==> db.products == Query.RemoveAt(old(db.products), k))
    ensures IndexOfId(db.products, id).None? || r.Err?
    ensures db.Valid()
  {
    var found := IndexOfId(db.products, id);
    if found.None? {
      return Ok(());
    }
    var k := found.value;
    if IsReferencedCheck(db.orders, db.products[k]) {
      return Err(ForeignKeyViolation("FK_OrderItems_Products"));
    }
    DeleteKeepsValid(db.products, db.orders, db.users, k);
    db.products := Query.RemoveAt(db.products, k);
    r := Ok(());
  }

  /** The restrict check the database makes before cascading. */
  function IsReferencedCheck(os: seq<Order>, p: Product): (r: bool)
    ensures r <==> IsReferenced(os, p)
  {
    exists o, it :: o in os && it in o.orderItems &&
      (it.productId == p.id || exists v :: v in p.variants && v.id == it.productVariantId)
  }

  lemma DeleteKeepsValid(ps: seq<Product>, os: seq<Order>, us: seq<UserEntities.User>, k: nat)
    requires ValidProducts(ps) && ValidOrders(os, us, ps) && k < |ps|
    requires !IsReferenced(os, ps[k])
    ensures ValidProducts(Query.RemoveAt(ps, k)) && ValidOrders(os, us, Query.RemoveAt(ps, k))
  {
    RemoveKeepsProductsValid(ps, k);
    forall i | 0 <= i < |os| ensures ItemsResolve(os[i], Query.RemoveAt(ps, k)) {
      assert ItemsResolve(os[i], ps);
      forall it | it in os[i].orderItems
        ensures it.productId in ProductIds(Query.RemoveAt(ps, k)) && it.productVariantId in VariantIds(Query.RemoveAt(ps, k))
      {
        assert os[i] in os;
        ItemSurvivesDelete(ps, k, it);
      }
    }
  }

  lemma RemoveKeepsProductsValid(ps: seq<Product>, k: nat)
    requires ValidProducts(ps) && k < |ps|
    ensures ValidProducts(Query.RemoveAt(ps, k))
  {
    var r := Query.RemoveAt(ps, k);
    RemoveKeepsChildKeys(ps, k);
    forall i, j | 0 <= i < j < |r| ensures r[i].id != r[j].id && r[i].handle != r[j].handle {
      var i0, j0 := if i < k then i else i + 1, if j < k then j else j + 1;
      assert r[i] == ps[i0] && r[j] == ps[j0] && i0 < j0;
    }
  }

  lemma ItemSurvivesDelete(ps: seq<Product>, k: nat, it: OrderItem)
    requires k < |ps|
    requires it.productId in ProductIds(ps) && it.productVariantId in VariantIds(ps)
    requires it.productId != ps[k].id && it.productVariantId !in VariantIds([ps[k]])
    ensures it.productId in ProductIds(Query.RemoveAt(ps, k)) && it.productVariantId in VariantIds(Query.RemoveAt(ps, k))
  {
    var r := Query.RemoveAt(ps, k);
    var p :| p in ps && p.id == it.productId;
    var i :| 0 <= i < |ps| && ps[i] == p;
    assert r[if i < k then i else i - 1] == p;
    var q, v :| q in ps && v in q.variants && v.id == it.productVariantId;
    var j :| 0 <= j < |ps| && ps[j] == q;
    if j == k {
      assert false;
    }
    assert r[if j < k then j else j - 1] == q;
  }
}
