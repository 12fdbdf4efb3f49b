/**
 * The product application service: who may see and change products, the
 * translation of requests into repository calls, the assembly of a new product
 * from a create request, the partial update, and the mapping to DTOs.
 */
module ProductService {
  import opened Wrappers
  import opened Primitives
  import opened Text
  import Query
  import opened ProductEntities
  import opened UserEntities
  import opened DbContext
  import Repo = ProductRepository

  /** The exceptions the service throws; a failed save surfaces as `Db`. */
  datatype ServiceError = Unauthorized(message: string) | InvalidOperation(message: string) | Db(error: DbError)

  /** The caller is a signed-in administrator. */
  predicate IsAdminCaller(currentUser: Option<User>)
  {
    currentUser.Some? && currentUser.value.IsAdmin()
  }

  // ---------------------------------------------------------------------------
  // DTOs

  /** A variant as returned to clients; `productId` is left at `Guid.Empty`. */
  datatype ProductVariantDto = ProductVariantDto(
    id: Guid, productId: Guid, title: string, sku: string, price: Money, compareAtPrice: Option<Money>,
    inventoryQuantity: int, weight: Option<int>, weightUnit: Option<string>,
    option1: Option<string>, option2: Option<string>, option3: Option<string>, imageUrl: Option<string>,
    isAvailable: bool)

  datatype ProductImageDto = ProductImageDto(
    id: Guid, url: string, altText: Option<string>, position: int, width: int, height: int)

  /** An option as returned to clients; `productId` is left at `Guid.Empty`. */
  datatype ProductOptionDto = ProductOptionDto(id: Guid, productId: Guid, name: string, position: int, values: seq<string>)

  datatype ProductDto = ProductDto(
    id: Guid, title: string, description: string, vendor: string, productType: string, tags: seq<string>,
    variants: seq<ProductVariantDto>, images: seq<ProductImageDto>, options: seq<ProductOptionDto>,
    status: string, createdAt: DateTime, updatedAt: DateTime, handle: string, publishedAt: Option<DateTime>,
    seoTitle: Option<string>, seoDescription: Option<string>, published: bool,
    mainImage: Option<ProductImageDto>, isAvailable: bool, minPrice: Money, maxPrice: Money, totalInventory: int)

  const EmptyGuid: Guid := 0

  function VariantDto(v: ProductVariant): ProductVariantDto
  {
    ProductVariantDto(v.id, EmptyGuid, v.title, v.sku, v.price, v.compareAtPrice, v.inventoryQuantity, v.weight,
                      v.weightUnit, v.option1, v.option2, v.option3, v.imageUrl, v.IsAvailable())
  }

  function ImageDto(i: ProductImage): ProductImageDto
  {
    ProductImageDto(i.id, i.url, i.altText, i.position, i.width, i.height)
  }

  function OptionDto(o: ProductOption): ProductOptionDto
  {
    ProductOptionDto(o.id, EmptyGuid, o.name, o.position, o.values)
  }

  function VariantDtos(vs: seq<ProductVariant>): (r: seq<ProductVariantDto>)
    ensures |r| == |vs| && forall i :: 0 <= i < |vs| ==> r[i] == VariantDto(vs[i])
  {
    seq(|vs|, i requires 0 <= i < |vs| => VariantDto(vs[i]))
  }

  function ImageDtos(imgs: seq<ProductImage>): (r: seq<ProductImageDto>)
    ensures |r| == |imgs| && forall i :: 0 <= i < |imgs| ==> r[i] == ImageDto(imgs[i])
  {
    seq(|imgs|, i requires 0 <= i < |imgs| => ImageDto(imgs[i]))
  }

  function OptionDtos(opts: seq<ProductOption>): (r: seq<ProductOptionDto>)
    ensures |r| == |opts| && forall i :: 0 <= i < |opts| ==> r[i] == OptionDto(opts[i])
  {
    seq(|opts|, i requires 0 <= i < |opts| => OptionDto(opts[i]))
  }

  /** `MapToDto`: a field-by-field copy plus the product's computed properties. */
  function MapToDto(p: Product): ProductDto
  {
    var main := p.MainImage();
    ProductDto(p.id, p.title, p.description, p.vendor, p.productType, p.tags,
               VariantDtos(p.variants), ImageDtos(p.images), OptionDtos(p.options),
               p.status, p.createdAt, p.updatedAt, p.handle, p.publishedAt, p.seoTitle, p.seoDescription, false,
               if main.Some? then Some(ImageDto(main.value)) else None,
               p.IsAvailable(), p.MinPrice(), p.MaxPrice(), p.TotalInventory())
  }

  /**
   * The DTO's computed fields agree with its own lists: it is available iff some
   * variant DTO is, its main image is one of its image DTOs (none only without
   * images), and every variant price lies between its minimum and maximum.
   * Children carry `Guid.Empty` as product id and `Published` is never set.
   */
  lemma DtoConsistent(p: Product)
    ensures var r := MapToDto(p);
            && r.id == p.id && r.status == p.status && r.handle == p.handle
            && |r.variants| == |p.variants| && |r.images| == |p.images| && |r.options| == |p.options|
            && (forall i :: 0 <= i < |r.variants| ==> r.variants[i].id == p.variants[i].id && r.variants[i].productId == EmptyGuid)
            && (r.isAvailable <==> exists i :: 0 <= i < |r.variants| && r.variants[i].isAvailable)
            && (r.mainImage.None? <==> r.images == [])
            && (r.mainImage.Some? ==> r.mainImage.value in r.images)
            && (forall i :: 0 <= i < |r.variants| ==> r.minPrice <= r.variants[i].price <= r.maxPrice)
            && r.totalInventory == p.TotalInventory()
            && (p.CheckedTotalInventory().Some? ==> r.totalInventory == p.CheckedTotalInventory().value)
            && !r.published
  {
    DtoMainImage(p);
    DtoAvailable(p);
  }

  lemma DtoMainImage(p: Product)
    ensures var r := MapToDto(p);
            && (r.mainImage.None? <==> r.images == [])
            && (r.mainImage.Some? ==> r.mainImage.value in r.images)
  {
    var r := MapToDto(p);
    var main := p.MainImage();
    if main.Some? && main.value.position == 1 {
      var i :| 0 <= i < |p.images| && p.images[i] == main.value;
      assert r.images[i] == r.mainImage.value;
    } else if main.Some? {
      assert r.images[0] == r.mainImage.value;
    }
  }

  lemma DtoAvailable(p: Product)
    ensures var r := MapToDto(p);
            r.isAvailable <==> exists i :: 0 <= i < |r.variants| && r.variants[i].isAvailable
  {
    var r := MapToDto(p);
    if p.IsAvailable() {
      var i :| 0 <= i < |p.variants| && p.variants[i].IsAvailable();
      assert r.variants[i].isAvailable;
    }
  }

  function MapAll(ps: seq<Product>): (r: seq<ProductDto>)
    ensures |r| == |ps| && forall i :: 0 <= i < |ps| ==> r[i] == MapToDto(ps[i])
  {
    seq(|ps|, i requires 0 <= i < |ps| => MapToDto(ps[i]))
  }

  // ---------------------------------------------------------------------------
  // Lookups

  /** A product the caller may see: active ones to everybody, the rest to administrators only. */
  predicate Visible(p: Product, currentUser: Option<User>)
  {
    p.status == "active" || IsAdminCaller(currentUser)
  }

  function GetByIdAsync(ps: seq<Product>, id: Guid, currentUser: Option<User>): (r: Option<ProductDto>)
    ensures r.Some? <==> Repo.GetByIdAsync(ps, id).Some? && Visible(Repo.GetByIdAsync(ps, id).value, currentUser)
    ensures r.Some? ==> r.value == MapToDto(Repo.GetByIdAsync(ps, id).value)
    ensures r.Some? && !IsAdminCaller(currentUser) ==> r.value.status == "active"
  {
    match Repo.GetByIdAsync(ps, id)
    case None => None
    case Some(p) => if Visible(p, currentUser) then Some(MapToDto(p)) else None
  }

  function GetByHandleAsync(ps: seq<Product>, handle: string, currentUser: Option<User>): (r: Option<ProductDto>)
    ensures r.Some? <==> Repo.GetByHandleAsync(ps, handle).Some? && Visible(Repo.GetByHandleAsync(ps, handle).value, currentUser)
    ensures r.Some? ==> r.value == MapToDto(Repo.GetByHandleAsync(ps, handle).value) && r.value.handle == handle
    ensures r.Some? && !IsAdminCaller(currentUser) ==> r.value.status == "active"
  {
    match Repo.GetByHandleAsync(ps, handle)
    case None => None
    case Some(p) => if Visible(p, currentUser) then Some(MapToDto(p)) else None
  }

  // ---------------------------------------------------------------------------
  // Search and count

  /** The search request and its defaults: sort by "createdat", newest first, page 1 of 20. */
  datatype ProductSearchRequest = ProductSearchRequest(
    search: Option<string>, category: Option<string>, vendor: Option<string>,
    minPrice: Option<Money>, maxPrice: Option<Money>, inStock: Option<bool>, status: Option<string>,
    tags: Option<seq<string>>, sortBy: Option<string>, sortDescending: bool, page: int, pageSize: int)

  const DefaultSearchRequest := ProductSearchRequest(None, None, None, None, None, None, None, None,
                                                     Some("createdat"), true, 1, 20)

  datatype ProductSearchResponse = ProductSearchResponse(
    products: seq<ProductDto>, totalCount: nat, page: int, pageSize: int, totalPages: Option<int>)

  /** The repository criteria for a request; anyone but an administrator gets `Status = "active"`. */
  function SearchCriteria(request: ProductSearchRequest, currentUser: Option<User>): (c: Repo.ProductSearchCriteria)
    ensures !IsAdminCaller(currentUser) ==> c.status == Some("active")
    ensures IsAdminCaller(currentUser) ==> c.status == request.status
  {
    Repo.ProductSearchCriteria(request.search, request.category, request.vendor, request.minPrice, request.maxPrice,
                               request.inStock,
                               if IsAdminCaller(currentUser) then request.status else Some("active"),
                               request.tags, request.sortBy, request.sortDescending)
  }

  function SearchAsync(ps: seq<Product>, request: ProductSearchRequest, currentUser: Option<User>): (r: ProductSearchResponse)
    ensures var c := SearchCriteria(request, currentUser);
            exists res :: Query.IsPageOfOrdering(res, Repo.Filtered(ps, c), Repo.SearchKey(c), c.sortDescending,
                                                 request.page, request.pageSize) &&
                          r.products == MapAll(res.items) && r.totalCount == res.totalCount
    ensures r.page == request.page && r.pageSize == request.pageSize
    ensures r.totalPages == Query.TotalPages(r.totalCount, request.pageSize)
  {
    var res := Repo.SearchAsync(ps, SearchCriteria(request, currentUser), request.page, request.pageSize);
    ProductSearchResponse(MapAll(res.items), res.totalCount, request.page, request.pageSize,
                          Query.TotalPages(res.totalCount, request.pageSize))
  }

  /** Anyone but an administrator finds only active products. */
  lemma SearchShowsOnlyActive(ps: seq<Product>, request: ProductSearchRequest, currentUser: Option<User>)
    requires !IsAdminCaller(currentUser)
    ensures forall d :: d in SearchAsync(ps, request, currentUser).products ==> d.status == "active"
  {
    var c := SearchCriteria(request, currentUser);
    var res := Repo.SearchAsync(ps, c, request.page, request.pageSize);
    Repo.SearchResultsMatch(ps, c, request.page, request.pageSize);
    forall p | p in res.items ensures p.status == "active" {
      ActiveOnly(c, p);
    }
    ActiveDtos(res.items);
  }

  lemma ActiveDtos(items: seq<Product>)
    requires forall p :: p in items ==> p.status == "active"
    ensures forall d :: d in MapAll(items) ==> d.status == "active"
  {
    var dtos := MapAll(items);
    forall d | d in dtos ensures d.status == "active" {
      var i :| 0 <= i < |items| && dtos[i] == d;
      assert items[i] in items;
    }
  }

  /** A product passing the `Status = "active"` filter is active. */
  lemma ActiveOnly(c: Repo.ProductSearchCriteria, p: Product)
    requires c.status == Some("active") && Repo.Matches(c, p)
    ensures p.status == "active"
  {
    assert !IsNullOrEmpty(c.status);
  }

  /** For anyone but an administrator the status the request asks for makes no difference. */
  lemma SearchIgnoresRequestedStatus(ps: seq<Product>, request: ProductSearchRequest, status: Option<string>,
                                     currentUser: Option<User>)
    requires !IsAdminCaller(currentUser)
    ensures SearchAsync(ps, request, currentUser) == SearchAsync(ps, request.(status := status), currentUser)
  {
    assert SearchCriteria(request.(status := status), currentUser) == SearchCriteria(request, currentUser);
  }

  /** `GetProductCountAsync`: the criteria only when a request is given, always with the status rule. */
  function CountCriteria(request: Option<ProductSearchRequest>, currentUser: Option<User>): Option<Repo.ProductSearchCriteria>
  {
    var c := if request.None? then None
             else var q := request.value;
                  Some(Repo.ProductSearchCriteria(q.search, q.category, q.vendor, q.minPrice, q.maxPrice, q.inStock,
                                                  q.status, q.tags, None, true));
    if IsAdminCaller(currentUser) then c
    else Some((if c.None? then Repo.NoCriteria else c.value).(status := Some("active")))
  }

  function GetProductCountAsync(ps: seq<Product>, request: Option<ProductSearchRequest>, currentUser: Option<User>): (r: nat)
    ensures r <= |ps|
    ensures request.None? && IsAdminCaller(currentUser) ==> r == |ps|
  {
    Repo.GetCountAsync(ps, CountCriteria(request, currentUser))
  }

  /** `GetCountAsync` repeats `GetProductCountAsync` line for line. */
  function GetCountAsync(ps: seq<Product>, request: Option<ProductSearchRequest>, currentUser: Option<User>): nat
  {
    GetProductCountAsync(ps, request, currentUser)
  }

  /**
   * The count for a request is the total of the search for the same request and
   * caller; without a request, a caller who is not an administrator counts the
   * active products.
   */
  lemma CountAgreesWithSearch(ps: seq<Product>, request: ProductSearchRequest, currentUser: Option<User>)
    ensures GetProductCountAsync(ps, Some(request), currentUser) == SearchAsync(ps, request, currentUser).totalCount
    ensures !IsAdminCaller(currentUser) ==>
              GetProductCountAsync(ps, None, currentUser) ==
                |Query.FilterBy(ps, Repo.MatchFn(Repo.NoCriteria.(status := Some("active"))))|
  {
    var c := SearchCriteria(request, currentUser);
    var cc := CountCriteria(Some(request), currentUser).value;
    assert cc == c.(sortBy := None, sortDescending := true);
    Query.FilterExt(ps, Repo.MatchFn(cc), Repo.MatchFn(c));
  }

  // ---------------------------------------------------------------------------
  // Fixed lists

  /** Drops non-active products for anyone but an administrator, then maps. */
  function VisibleDtos(ps: seq<Product>, currentUser: Option<User>): (r: seq<ProductDto>)
    ensures IsAdminCaller(currentUser) ==> r == MapAll(ps)
    ensures !IsAdminCaller(currentUser) ==> r == MapAll(Query.FilterBy(ps, (p: Product) => p.status == "active"))
    ensures forall d :: d in r ==> IsAdminCaller(currentUser) || d.status == "active"
    ensures |r| <= |ps|
  {
    var shown := if IsAdminCaller(currentUser) then ps else Query.FilterBy(ps, (p: Product) => p.status == "active");
    MapAllFrom(shown);
    MapAll(shown)
  }

  /** Each shown DTO is that of a listed product the caller may see; a list of active products is shown whole. */
  lemma VisibleDtosFrom(ps: seq<Product>, currentUser: Option<User>)
    ensures forall d :: d in VisibleDtos(ps, currentUser) ==> exists p :: p in ps && Visible(p, currentUser) && d == MapToDto(p)
    ensures (forall p :: p in ps ==> p.status == "active") ==> VisibleDtos(ps, currentUser) == MapAll(ps)
  {
    var shown := if IsAdminCaller(currentUser) then ps else Query.FilterBy(ps, (p: Product) => p.status == "active");
    assert VisibleDtos(ps, currentUser) == MapAll(shown);
    assert forall p :: p in shown ==> p in ps && Visible(p, currentUser);
    MapAllFrom(shown);
    Query.FilterKeepsAll(ps, (p: Product) => p.status == "active");
  }

  lemma MapAllFrom(ps: seq<Product>)
    ensures forall d :: d in MapAll(ps) ==> exists p :: p in ps && d == MapToDto(p)
  {
    forall d | d in MapAll(ps) ensures exists p :: p in ps && d == MapToDto(p) {
      var i :| 0 <= i < |ps| && MapAll(ps)[i] == d;
      assert ps[i] in ps;
    }
  }

  /**
   * The visibility filter runs after paging, so a page for a caller who is not an
   * administrator can be shorter than the page size even when more active products
   * exist; it is never longer than the repository's page. Every DTO is that of a
   * stored product of the category (ignoring case) the caller may see.
   */
  function GetByCategoryAsync(ps: seq<Product>, category: string, page: int, pageSize: int, currentUser: Option<User>)
    : (r: seq<ProductDto>)
    ensures |r| <= |Repo.GetByCategoryAsync(ps, category, page, pageSize)|
    ensures pageSize >= 0 ==> |r| <= pageSize
    ensures IsAdminCaller(currentUser) ==> r == MapAll(Repo.GetByCategoryAsync(ps, category, page, pageSize))
    ensures !IsAdminCaller(currentUser) ==>
              r == MapAll(Query.FilterBy(Repo.GetByCategoryAsync(ps, category, page, pageSize), (p: Product) => p.status == "active"))
    ensures forall d :: d in r ==>
              exists p :: p in ps && Visible(p, currentUser) && EqualsIgnoreCase(p.productType, category) && d == MapToDto(p)
  {
    Repo.CategoryFacts(ps, category, page, pageSize);
    VisibleDtosFrom(Repo.GetByCategoryAsync(ps, category, page, pageSize), currentUser);
    VisibleDtos(Repo.GetByCategoryAsync(ps, category, page, pageSize), currentUser)
  }

  /** As `GetByCategoryAsync`, for the vendor (ignoring case). */
  function GetByVendorAsync(ps: seq<Product>, vendor: string, page: int, pageSize: int, currentUser: Option<User>)
    : (r: seq<ProductDto>)
    ensures |r| <= |Repo.GetByVendorAsync(ps, vendor, page, pageSize)|
    ensures pageSize >= 0 ==> |r| <= pageSize
    ensures IsAdminCaller(currentUser) ==> r == MapAll(Repo.GetByVendorAsync(ps, vendor, page, pageSize))
    ensures !IsAdminCaller(currentUser) ==>
              r == MapAll(Query.FilterBy(Repo.GetByVendorAsync(ps, vendor, page, pageSize), (p: Product) => p.status == "active"))
    ensures forall d :: d in r ==>
              exists p :: p in ps && Visible(p, currentUser) && EqualsIgnoreCase(p.vendor, vendor) && d == MapToDto(p)
  {
    Repo.VendorFacts(ps, vendor, page, pageSize);
    VisibleDtosFrom(Repo.GetByVendorAsync(ps, vendor, page, pageSize), currentUser);
    VisibleDtos(Repo.GetByVendorAsync(ps, vendor, page, pageSize), currentUser)
  }

  /**
   * The repository keeps active products only, so the visibility filter drops
   * nothing: every caller gets the DTOs of the repository's list.
   */
  function GetFeaturedAsync(ps: seq<Product>, limit: int, currentUser: Option<User>): (r: seq<ProductDto>)
    ensures r == MapAll(Repo.GetFeaturedAsync(ps, limit))
    ensures limit >= 0 ==> |r| <= limit
    ensures forall d :: d in r ==> d.status == "active"
  {
    Repo.FeaturedFacts(ps, limit);
    VisibleDtosFrom(Repo.GetFeaturedAsync(ps, limit), currentUser);
    VisibleDtos(Repo.GetFeaturedAsync(ps, limit), currentUser)
  }

  /** As `GetFeaturedAsync`: related products are active, so every caller gets the same list. */
  function GetRelatedAsync(ps: seq<Product>, productId: Guid, limit: int, currentUser: Option<User>): (r: seq<ProductDto>)
    ensures r == MapAll(Repo.GetRelatedAsync(ps, productId, limit))
    ensures limit >= 0 ==> |r| <= limit
    ensures forall d :: d in r ==> d.status == "active" && d.id != productId
  {
    Repo.RelatedFacts(ps, productId, limit);
    VisibleDtosFrom(Repo.GetRelatedAsync(ps, productId, limit), currentUser);
    VisibleDtos(Repo.GetRelatedAsync(ps, productId, limit), currentUser)
  }

  // ---------------------------------------------------------------------------
  // Create

  datatype CreateProductVariantRequest = CreateProductVariantRequest(
    title: string, sku: string, price: Money, compareAtPrice: Option<Money>, inventoryQuantity: int,
    weight: Option<int>, weightUnit: Option<string>,
    option1: Option<string>, option2: Option<string>, option3: Option<string>, imageUrl: Option<string>)

  datatype CreateProductImageRequest = CreateProductImageRequest(
    url: string, altText: Option<string>, position: int, width: int, height: int)

  datatype CreateProductOptionRequest = CreateProductOptionRequest(name: string, position: int, values: seq<string>)

  /** The create request; `status` defaults to "active" and `published` to true. */
  datatype CreateProductRequest = CreateProductRequest(
    title: string, description: string, handle: string, vendor: string, productType: string, tags: seq<string>,
    variants: seq<CreateProductVariantRequest>, images: seq<CreateProductImageRequest>,
    options: seq<CreateProductOptionRequest>, status: string, published: bool,
    seoTitle: Option<string>, seoDescription: Option<string>)

  function VariantFrom(q: CreateProductVariantRequest, id: Guid, productId: Guid): ProductVariant
  {
    ProductVariant(id, q.title, q.sku, q.price, q.compareAtPrice, q.inventoryQuantity, q.weight, q.weightUnit,
                   q.option1, q.option2, q.option3, q.imageUrl, productId)
  }

  function ImageFrom(q: CreateProductImageRequest, id: Guid, productId: Guid): ProductImage
  {
    ProductImage(id, q.url, q.altText, q.position, q.width, q.height, productId)
  }

  function OptionFrom(q: CreateProductOptionRequest, id: Guid, productId: Guid): ProductOption
  {
    ProductOption(id, q.name, q.position, q.values, productId)
  }

  /**
   * The product `CreateAsync` assembles. `newGuid(n)` is the `n`-th `Guid.NewGuid()`
   * of the call: the product's id first, then one per variant, image and option, in
   * request order.
   */
  function BuildProduct(request: CreateProductRequest, newGuid: nat -> Guid, now: DateTime): Product
  {
    var id := newGuid(0);
    var nv, ni := |request.variants|, |request.images|;
    Product(id, request.title, request.description, request.vendor, request.productType, request.tags,
            seq(nv, k requires 0 <= k < nv => VariantFrom(request.variants[k], newGuid(1 + k), id)),
            seq(ni, k requires 0 <= k < ni => ImageFrom(request.images[k], newGuid(1 + nv + k), id)),
            seq(|request.options|, k requires 0 <= k < |request.options| =>
                  OptionFrom(request.options[k], newGuid(1 + nv + ni + k), id)),
            request.status, now, now, request.handle, None, request.seoTitle, request.seoDescription)
  }

  /**
   * The assembled product holds one variant, image and option per request entry,
   * in request order, each linked to the new product; both timestamps are `now`.
   */
  lemma BuiltProductShape(request: CreateProductRequest, newGuid: nat -> Guid, now: DateTime)
    ensures var p := BuildProduct(request, newGuid, now);
            && p.id == newGuid(0) && p.handle == request.handle && p.status == request.status
            && p.createdAt == now && p.updatedAt == now && p.publishedAt.None?
            && |p.variants| == |request.variants| && |p.images| == |request.images| && |p.options| == |request.options|
            && (forall k :: 0 <= k < |p.variants| ==>
                  p.variants[k].sku == request.variants[k].sku && p.variants[k].productId == p.id)
            && (forall k :: 0 <= k < |p.images| ==> p.images[k].url == request.images[k].url && p.images[k].productId == p.id)
            && (forall k :: 0 <= k < |p.options| ==>
                  p.options[k].values == request.options[k].values && p.options[k].productId == p.id)
  {
  }

  /** The variants loop: one variant per request entry, in order, with the next fresh ids. */
  method AddVariants(reqs: seq<CreateProductVariantRequest>, newGuid: nat -> Guid, first: nat, productId: Guid)
    returns (vs: seq<ProductVariant>)
    ensures |vs| == |reqs| && forall k :: 0 <= k < |reqs| ==> vs[k] == VariantFrom(reqs[k], newGuid(first + k), productId)
  {
    vs := [];
    var i := 0;
    while i < |reqs|
      invariant 0 <= i <= |reqs| && |vs| == i
      invariant forall k :: 0 <= k < i ==> vs[k] == VariantFrom(reqs[k], newGuid(first + k), productId)
    {
      vs := vs + [VariantFrom(reqs[i], newGuid(first + i), productId)];
      i := i + 1;
    }
  }

  method AddImages(reqs: seq<CreateProductImageRequest>, newGuid: nat -> Guid, first: nat, productId: Guid)
    returns (imgs: seq<ProductImage>)
    ensures |imgs| == |reqs| && forall k :: 0 <= k < |reqs| ==> imgs[k] == ImageFrom(reqs[k], newGuid(first + k), productId)
  {
    imgs := [];
    var i := 0;
    while i < |reqs|
      invariant 0 <= i <= |reqs| && |imgs| == i
      invariant forall k :: 0 <= k < i ==> imgs[k] == ImageFrom(reqs[k], newGuid(first + k), productId)
    {
      imgs := imgs + [ImageFrom(reqs[i], newGuid(first + i), productId)];
      i := i + 1;
    }
  }

  method AddOptions(reqs: seq<CreateProductOptionRequest>, newGuid: nat -> Guid, first: nat, productId: Guid)
    returns (opts: seq<ProductOption>)
    ensures |opts| == |reqs| && forall k :: 0 <= k < |reqs| ==> opts[k] == OptionFrom(reqs[k], newGuid(first + k), productId)
  {
    opts := [];
    var i := 0;
    while i < |reqs|
      invariant 0 <= i <= |reqs| && |opts| == i
      invariant forall k :: 0 <= k < i ==> opts[k] == OptionFrom(reqs[k], newGuid(first + k), productId)
    {
      opts := opts + [OptionFrom(reqs[i], newGuid(first + i), productId)];
      i := i + 1;
    }
  }

  /** The product the create loops assemble is the one `BuildProduct` describes. */
  lemma AssembledIsBuilt(request: CreateProductRequest, newGuid: nat -> Guid, now: DateTime,
                         variants: seq<ProductVariant>, images: seq<ProductImage>, options: seq<ProductOption>)
    requires var id, nv, ni := newGuid(0), |request.variants|, |request.images|;
             && |variants| == nv && |images| == ni && |options| == |request.options|
             && (forall k :: 0 <= k < nv ==> variants[k] == VariantFrom(request.variants[k], newGuid(1 + k), id))
             && (forall k :: 0 <= k < ni ==> images[k] == ImageFrom(request.images[k], newGuid(1 + nv + k), id))
             && (forall k :: 0 <= k < |options| ==> options[k] == OptionFrom(request.options[k], newGuid(1 + nv + ni + k), id))
    ensures Product(newGuid(0), request.title, request.description, request.vendor, request.productType, request.tags,
                    variants, images, options, request.status, now, now, request.handle, None,
                    request.seoTitle, request.seoDescription) == BuildProduct(request, newGuid, now)
  {
    var b := BuildProduct(request, newGuid, now);
    assert variants == b.variants;
    assert images == b.images;
    assert options == b.options;
  }

  /**
   * `CreateAsync`: administrators only; a taken handle is refused before anything
   * is built; otherwise the assembled product is saved and returned as a DTO.
   */
  method CreateAsync(db: Database, request: CreateProductRequest, currentUser: User, newGuid: nat -> Guid, now: DateTime)
    returns (r: Result<ProductDto, ServiceError>)
    requires db.Valid()
    modifies db`products
    ensures !currentUser.IsAdmin() ==> r == Err(Unauthorized("Only admins can create products"))
    ensures currentUser.IsAdmin() && Repo.ExistsByHandleAsync(old(db.products), request.handle) ==>
              r == Err(InvalidOperation("Product with handle '" + request.handle + "' already exists"))
    ensures currentUser.IsAdmin() && !Repo.ExistsByHandleAsync(old(db.products), request.handle) ==>
              (r.Ok? <==> newGuid(0) !in ProductIds(old(db.products)) &&
                          ChildKeysDistinct(old(db.products) + [BuildProduct(request, newGuid, now)]))
    ensures r.Ok? ==> r.value == MapToDto(BuildProduct(request, newGuid, now)) &&
                      db.products == old(db.products) + [StoredProduct(BuildProduct(request, newGuid, now))]
    ensures r.Err? ==> db.products == old(db.products)
    ensures db.Valid()
  {
    if !currentUser.IsAdmin() {
      return Err(Unauthorized("Only admins can create products"));
    }
    if Repo.ExistsByHandleAsync(db.products, request.handle) {
      return Err(InvalidOperation("Product with handle '" + request.handle + "' already exists"));
    }
    var id := newGuid(0);
    var nv, ni := |request.variants|, |request.images|;
    var variants := AddVariants(request.variants, newGuid, 1, id);
    var images := AddImages(request.images, newGuid, 1 + nv, id);
    var options := AddOptions(request.options, newGuid, 1 + nv + ni, id);
    var product := Product(id, request.title, request.description, request.vendor, request.productType, request.tags,
                           variants, images, options, request.status, now, now, request.handle, None,
                           request.seoTitle, request.seoDescription);
    AssembledIsBuilt(request, newGuid, now, variants, images, options);
    var saved := Repo.AddAsync(db, product);
    match saved
    case Ok(p) => r := Ok(MapToDto(p));
    case Err(e) => r := Err(Db(e));
  }

  // ---------------------------------------------------------------------------
  // Update, delete, inventory

  /** The update request; `handle`, `published` and the child lists are accepted and ignored. */
  datatype UpdateProductRequest = UpdateProductRequest(
    title: Option<string>, description: Option<string>, handle: Option<string>, vendor: Option<string>,
    productType: Option<string>, tags: Option<seq<string>>,
    variants: Option<seq<ProductVariantDto>>, images: Option<seq<ProductImageDto>>, options: Option<seq<ProductOptionDto>>,
    status: Option<string>, published: Option<bool>, seoTitle: Option<string>, seoDescription: Option<string>)

  /** Text fields are overwritten only by a non-empty value, tags and SEO fields by any non-null one. */
  function ApplyUpdate(p: Product, request: UpdateProductRequest, now: DateTime): Product
  {
    p.(title := if IsNullOrEmpty(request.title) then p.title else request.title.value,
       description := if IsNullOrEmpty(request.description) then p.description else request.description.value,
       vendor := if IsNullOrEmpty(request.vendor) then p.vendor else request.vendor.value,
       productType := if IsNullOrEmpty(request.productType) then p.productType else request.productType.value,
       tags := if request.tags.None? then p.tags else request.tags.value,
       status := if IsNullOrEmpty(request.status) then p.status else request.status.value,
       seoTitle := if request.seoTitle.None? then p.seoTitle else request.seoTitle,
       seoDescription := if request.seoDescription.None? then p.seoDescription else request.seoDescription,
       updatedAt := now)
  }

  /**
   * The update keeps the product's identity, handle, creation time and child rows
   * whatever the request holds; an empty title keeps the old one; a null SEO title
   * keeps it, while an empty one is stored.
   */
  lemma UpdateKeepsIdentity(p: Product, request: UpdateProductRequest, now: DateTime)
    ensures var u := ApplyUpdate(p, request, now);
            && u.id == p.id && u.handle == p.handle && u.createdAt == p.createdAt && u.publishedAt == p.publishedAt
            && u.variants == p.variants && u.images == p.images && u.options == p.options
            && u.updatedAt == now
            && (request.title == Some("") ==> u.title == p.title)
            && (request.seoTitle == Some("") ==> u.seoTitle == Some(""))
  {
  }

  /**
   * `UpdateAsync`: administrators only; an unknown id is "Product not found";
   * otherwise the merged product's columns are saved. Since the handle never
   * changes, the save cannot hit the handle index.
   */
  method UpdateAsync(db: Database, id: Guid, request: UpdateProductRequest, currentUser: User, now: DateTime)
    returns (r: Result<ProductDto, ServiceError>)
    requires db.Valid()
    modifies db`products
    ensures !currentUser.IsAdmin() ==> r == Err(Unauthorized("Only admins can update products"))
    ensures currentUser.IsAdmin() && Repo.IndexOfId(old(db.products), id).None? ==>
              r == Err(InvalidOperation("Product not found"))
    ensures currentUser.IsAdmin() && Repo.IndexOfId(old(db.products), id).Some? ==>
              var k := Repo.IndexOfId(old(db.products), id).value;
              var u := ApplyUpdate(old(db.products)[k], request, now);
              r == Ok(MapToDto(u)) && db.products == old(db.products)[k := Repo.UpdatedColumns(old(db.products)[k], u)]
    ensures r.Err? ==> db.products == old(db.products)
    ensures db.Valid()
  {
    if !currentUser.IsAdmin() {
      return Err(Unauthorized("Only admins can update products"));
    }
    var found := Repo.IndexOfId(db.products, id);
    if found.None? {
      return Err(InvalidOperation("Product not found"));
    }
    var k := found.value;
    var existing := db.products[k];
    var u := ApplyUpdate(existing, request, now);
    forall i | 0 <= i < |db.products| && db.products[i].id != u.id ensures db.products[i].handle != u.handle {
      assert i != k;
    }
    var saved := Repo.UpdateAsync(db, u);
    match saved
    case Ok(p) => r := Ok(MapToDto(p));
    case Err(e) => r := Err(Db(e));
  }

  /**
   * `DeleteAsync`: administrators only; an unknown id is "Product not found"; a
   * product an order item references is refused by the database.
   */
  method DeleteAsync(db: Database, id: Guid, currentUser: User) returns (r: Result<(), ServiceError>)
    requires db.Valid()
    modifies db`products
    ensures !currentUser.IsAdmin() ==> r == Err(Unauthorized("Only admins can delete products"))
    ensures currentUser.IsAdmin() && Repo.IndexOfId(old(db.products), id).None? ==>
              r == Err(InvalidOperation("Product not found"))
    ensures currentUser.IsAdmin() && Repo.IndexOfId(old(db.products), id).Some? ==>
              var k := Repo.IndexOfId(old(db.products), id).value;
              (r.Err? <==> Repo.IsReferenced(db.orders, old(db.products)[k])) &&
              (r.Ok? ==> db.products == Query.RemoveAt(old(db.products), k))
    ensures r.Err? ==> db.products == old(db.products)
    ensures db.Valid()
  {
    if !currentUser.IsAdmin() {
      return Err(Unauthorized("Only admins can delete products"));
    }
    if Repo.IndexOfId(db.products, id).None? {
      return Err(InvalidOperation("Product not found"));
    }
    var deleted := Repo.DeleteAsync(db, id);
    match deleted
    case Ok(_) => r := Ok(());
    case Err(e) => r := Err(Db(e));
  }

  /**
   * `UpdateInventoryAsync`: administrators only; the product must exist and carry a
   * variant with `sku`; then the repository adds `quantity` to that variant's stock.
   */
  method UpdateInventoryAsync(db: Database, productId: Guid, sku: string, quantity: int, currentUser: User)
    returns (r: Result<(), ServiceError>)
    requires db.Valid()
    modifies db`products
    ensures !currentUser.IsAdmin() ==> r == Err(Unauthorized("Only admins can update inventory"))
    ensures currentUser.IsAdmin() && Repo.IndexOfId(old(db.products), productId).None? ==>
              r == Err(InvalidOperation("Product not found"))
    ensures currentUser.IsAdmin() && Repo.IndexOfId(old(db.products), productId).Some? ==>
              var p := old(db.products)[Repo.IndexOfId(old(db.products), productId).value];
              (!p.HasVariant(sku) ==> r == Err(InvalidOperation("Product variant not found"))) &&
              (p.HasVariant(sku) ==> r.Ok?)
    ensures r.Ok? ==> db.products == Repo.WithInventory(old(db.products), productId, sku, quantity)
    ensures r.Err? ==> db.products == old(db.products)
    ensures db.Valid()
  {
    if !currentUser.IsAdmin() {
      return Err(Unauthorized("Only admins can update inventory"));
    }
    var found := Repo.IndexOfId(db.products, productId);
    if found.None? {
      return Err(InvalidOperation("Product not found"));
    }
    if !db.products[found.value].HasVariant(sku) {
      return Err(InvalidOperation("Product variant not found"));
    }
    Repo.UpdateInventoryAsync(db, productId, sku, quantity);
    r := Ok(());
  }
}
