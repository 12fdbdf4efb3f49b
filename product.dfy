/**
 * The catalogue entities: a product with its variants, images and options, the
 * properties computed from them, and the in-place inventory adjustment.
 */
module ProductEntities {
  import opened Wrappers
  import opened Primitives
  import Query

  /** A purchasable variant. `Price` and the other decimals are cents. */
  datatype ProductVariant = ProductVariant(
    id: Guid,
    title: string,
    sku: string,
    price: Money,
    compareAtPrice: Option<Money>,
    inventoryQuantity: int,
    weight: Option<int>,
    weightUnit: Option<string>,
    option1: Option<string>,
    option2: Option<string>,
    option3: Option<string>,
    imageUrl: Option<string>,
    productId: Guid)
  {
    /** In stock when its quantity is positive. */
    predicate IsAvailable() { inventoryQuantity > 0 }
  }

  datatype ProductImage = ProductImage(
    id: Guid,
    url: string,
    altText: Option<string>,
    position: int,
    width: int,
    height: int,
    productId: Guid)

  datatype ProductOption = ProductOption(
    id: Guid,
    name: string,
    position: int,
    values: seq<string>,
    productId: Guid)

  datatype Product = Product(
    id: Guid,
    title: string,
    description: string,
    vendor: string,
    productType: string,
    tags: seq<string>,
    variants: seq<ProductVariant>,
    images: seq<ProductImage>,
    options: seq<ProductOption>,
    status: string,
    createdAt: DateTime,
    updatedAt: DateTime,
    handle: string,
    publishedAt: Option<DateTime>,
    seoTitle: Option<string>,
    seoDescription: Option<string>)
  {
    /** The first image at position 1, else the first image; none only without images. */
    function MainImage(): (r: Option<ProductImage>)
      ensures r.None? <==> images == []
      ensures r.Some? && r.value.position != 1 ==>
                r.value == images[0] && forall i :: 0 <= i < |images| ==> images[i].position != 1
      ensures r.Some? && r.value.position == 1 ==>
                exists i :: 0 <= i < |images| && images[i] == r.value &&
                  forall j :: 0 <= j < i ==> images[j].position != 1
    {
      match Query.FirstMatch(images, (img: ProductImage) => img.position == 1)
      case Some(i) => Some(images[i])
      case None => if images == [] then None else Some(images[0])
    }

    /** Some variant is in stock. */
    function IsAvailable(): (r: bool)
      ensures r <==> exists i :: 0 <= i < |variants| && variants[i].IsAvailable()
    {
      Query.FirstMatch(variants, (v: ProductVariant) => v.IsAvailable()).Some?
    }

    /** The least variant price, or 0 without variants. */
    function MinPrice(): (r: Money)
      ensures variants == [] ==> r == 0
      ensures variants != [] ==>
                (exists i :: 0 <= i < |variants| && variants[i].price == r) &&
                forall i :: 0 <= i < |variants| ==> r <= variants[i].price
    {
      if variants == [] then 0 else LeastPrice(variants)
    }

    /** The greatest variant price, or 0 without variants. */
    function MaxPrice(): (r: Money)
      ensures variants == [] ==> r == 0
      ensures variants != [] ==>
                (exists i :: 0 <= i < |variants| && variants[i].price == r) &&
                forall i :: 0 <= i < |variants| ==> variants[i].price <= r
    {
      if variants == [] then 0 else GreatestPrice(variants)
    }

    /** Total stock across the variants, as an exact integer. */
    function TotalInventory(): int
    {
      SumQuantities(variants)
    }

    /**
     * `Variants.Sum(v => v.InventoryQuantity)` as C# evaluates it: `None` when a
     * partial sum overflows `int` and the getter throws.
     */
    function CheckedTotalInventory(): (r: Option<int>)
      ensures r.Some? ==> r.value == TotalInventory() && IsInt32(r.value)
    {
      SumQuantitiesIsSum(variants);
      CheckedSum(Quantities(variants), 0)
    }

    /** `Variants.Any(v => v.Sku == sku)`: exactly when `GetVariant`'s search finds the SKU. */
    predicate HasVariant(sku: string)
      ensures HasVariant(sku) <==> SkuIndex(variants, sku).Some?
    {
      exists i :: 0 <= i < |variants| && variants[i].sku == sku
    }

    /** The first variant carrying `sku`. */
    function GetVariant(sku: string): (r: Option<ProductVariant>)
      ensures r.Some? ==> exists i :: 0 <= i < |variants| && variants[i] == r.value && r.value.sku == sku &&
                            forall j :: 0 <= j < i ==> variants[j].sku != sku
    {
      match SkuIndex(variants, sku)
      case Some(i) => Some(variants[i])
      case None => None
    }

    /** `GetVariant(sku)?.InventoryQuantity > 0`, which is false on a null variant. */
    predicate IsInStock(sku: string)
    {
      GetVariant(sku).Some? && GetVariant(sku).value.inventoryQuantity > 0
    }
  }

  function LeastPrice(vs: seq<ProductVariant>): (r: Money)
    requires vs != []
    ensures (exists i :: 0 <= i < |vs| && vs[i].price == r) && forall i :: 0 <= i < |vs| ==> r <= vs[i].price
  {
    if |vs| == 1 then vs[0].price
    else
      var m := LeastPrice(vs[1..]);
      assert forall i :: 1 <= i < |vs| ==> vs[i] == vs[1..][i - 1];
      if vs[0].price <= m then vs[0].price else m
  }

  function GreatestPrice(vs: seq<ProductVariant>): (r: Money)
    requires vs != []
    ensures (exists i :: 0 <= i < |vs| && vs[i].price == r) && forall i :: 0 <= i < |vs| ==> vs[i].price <= r
  {
    if |vs| == 1 then vs[0].price
    else
      var m := GreatestPrice(vs[1..]);
      assert forall i :: 1 <= i < |vs| ==> vs[i] == vs[1..][i - 1];
      if vs[0].price >= m then vs[0].price else m
  }

  function SumQuantities(vs: seq<ProductVariant>): int
  {
    if vs == [] then 0 else vs[0].inventoryQuantity + SumQuantities(vs[1..])
  }

  /** The inventory quantities, in variant order. */
  function Quantities(vs: seq<ProductVariant>): (r: seq<int>)
    ensures |r| == |vs| && forall i :: 0 <= i < |vs| ==> r[i] == vs[i].inventoryQuantity
  {
    seq(|vs|, i requires 0 <= i < |vs| => vs[i].inventoryQuantity)
  }

  lemma {:induction false} SumQuantitiesIsSum(vs: seq<ProductVariant>)
    ensures SumQuantities(vs) == Sum(Quantities(vs))
  {
    if vs != [] {
      assert Quantities(vs)[1..] == Quantities(vs[1..]);
      SumQuantitiesIsSum(vs[1..]);
    }
  }

  /** Index of the first variant carrying `sku`. */
  function SkuIndex(vs: seq<ProductVariant>, sku: string): (r: Option<nat>)
    ensures r.None? <==> forall i :: 0 <= i < |vs| ==> vs[i].sku != sku
    ensures r.Some? ==> r.value < |vs| && vs[r.value].sku == sku && forall j :: 0 <= j < r.value ==> vs[j].sku != sku
  {
    Query.FirstMatch(vs, (v: ProductVariant) => v.sku == sku)
  }

  // ---------------------------------------------------------------------------
  // Properties of the computed members

  /** Without variants both prices are 0; otherwise the least never exceeds the greatest. */
  lemma MinPriceAtMostMaxPrice(p: Product)
    ensures p.MinPrice() <= p.MaxPrice()
  {
    if p.variants != [] {
      var i :| 0 <= i < |p.variants| && p.variants[i].price == p.MinPrice();
    }
  }

  /** Stock totals are non-negative whenever every quantity is. */
  lemma {:induction false} TotalInventoryNonNegative(vs: seq<ProductVariant>)
    requires forall i :: 0 <= i < |vs| ==> vs[i].inventoryQuantity >= 0
    ensures SumQuantities(vs) >= 0
  {
    if vs != [] {
      TotalInventoryNonNegative(vs[1..]);
    }
  }

  /** With non-negative stock, `TotalInventory` throws exactly when the total exceeds `int.MaxValue`. */
  lemma TotalInventoryOverflows(p: Product)
    requires forall i :: 0 <= i < |p.variants| ==> p.variants[i].inventoryQuantity >= 0
    ensures p.CheckedTotalInventory().None? <==> p.TotalInventory() > MaxInt32
  {
    SumQuantitiesIsSum(p.variants);
    CheckedSumOfNaturals(Quantities(p.variants), 0);
  }

  /** Two variants each holding `int.MaxValue` units, which the column admits, make the getter throw. */
  lemma TwoFullVariantsOverflow(p: Product)
    requires |p.variants| == 2
    requires p.variants[0].inventoryQuantity == MaxInt32 && p.variants[1].inventoryQuantity == MaxInt32
    ensures p.CheckedTotalInventory().None? && p.TotalInventory() == 2 * MaxInt32
  {
    var vs := p.variants;
    assert vs[1..][1..] == [];
    assert SumQuantities(vs[1..]) == vs[1].inventoryQuantity + SumQuantities(vs[1..][1..]);
    assert p.TotalInventory() == vs[0].inventoryQuantity + SumQuantities(vs[1..]);
    TotalInventoryOverflows(p);
  }

  /** SumQuantities sums element by element over a concatenation. */
  lemma {:induction false} SumQuantitiesConcat(a: seq<ProductVariant>, b: seq<ProductVariant>)
    ensures SumQuantities(a + b) == SumQuantities(a) + SumQuantities(b)
  {
    if a == [] {
      assert a + b == b;
    } else {
      assert (a + b)[0] == a[0] && (a + b)[1..] == a[1..] + b;
      SumQuantitiesConcat(a[1..], b);
    }
  }

  /** Replacing one variant changes the total by the difference in its quantity. */
  lemma SumQuantitiesUpdate(vs: seq<ProductVariant>, k: nat, v: ProductVariant)
    requires k < |vs|
    ensures SumQuantities(vs[k := v]) == SumQuantities(vs) - vs[k].inventoryQuantity + v.inventoryQuantity
  {
    assert vs == vs[..k] + [vs[k]] + vs[k + 1..];
    assert vs[k := v] == vs[..k] + [v] + vs[k + 1..];
    SumQuantitiesConcat(vs[..k] + [vs[k]], vs[k + 1..]);
    SumQuantitiesConcat(vs[..k], [vs[k]]);
    SumQuantitiesConcat(vs[..k] + [v], vs[k + 1..]);
    SumQuantitiesConcat(vs[..k], [v]);
  }

  /** With non-negative quantities, a product is available exactly when its total stock is positive. */
  lemma {:induction false} AvailableIffStock(vs: seq<ProductVariant>)
    requires forall i :: 0 <= i < |vs| ==> vs[i].inventoryQuantity >= 0
    ensures SumQuantities(vs) > 0 <==> exists i :: 0 <= i < |vs| && vs[i].IsAvailable()
  {
    if vs != [] {
      AvailableIffStock(vs[1..]);
      TotalInventoryNonNegative(vs[1..]);
      if exists i :: 0 <= i < |vs[1..]| && vs[1..][i].IsAvailable() {
        var i :| 0 <= i < |vs[1..]| && vs[1..][i].IsAvailable();
        assert vs[i + 1].IsAvailable();
      }
      if exists i :: 0 <= i < |vs| && vs[i].IsAvailable() {
        var i :| 0 <= i < |vs| && vs[i].IsAvailable();
        if i > 0 { assert vs[1..][i - 1].IsAvailable(); }
      }
    }
  }

  /** `HasVariant(sku)` holds exactly when `GetVariant(sku)` finds one, and that one carries `sku`. */
  lemma HasVariantIffGetVariant(p: Product, sku: string)
    ensures p.HasVariant(sku) <==> p.GetVariant(sku).Some?
    ensures p.GetVariant(sku).Some? ==> p.GetVariant(sku).value.sku == sku
  {
  }

  /** In stock means the product carries the SKU and is available. */
  lemma InStockImpliesAvailable(p: Product, sku: string)
    requires p.IsInStock(sku)
    ensures p.HasVariant(sku) && p.IsAvailable()
  {
    var i :| 0 <= i < |p.variants| && p.variants[i] == p.GetVariant(sku).value;
    assert p.variants[i].IsAvailable();
  }

  /**
   * Only the first variant with a SKU counts for `IsInStock`: a product may be
   * available through a later variant with the same SKU while `IsInStock` says no.
   */
  lemma DuplicateSkuShadowsStock()
    ensures var v0 := ProductVariant(1, "A", "X", 100, None, 0, None, None, None, None, None, None, 9);
            var v1 := v0.(id := 2, inventoryQuantity := 5);
            var p := Product(9, "T", "", "V", "PT", [], [v0, v1], [], [], "active", 0, 0, "t", None, None, None);
            p.IsAvailable() && !p.IsInStock("X")
  {
    var v0 := ProductVariant(1, "A", "X", 100, None, 0, None, None, None, None, None, None, 9);
    var v1 := v0.(id := 2, inventoryQuantity := 5);
    assert [v0, v1][1].IsAvailable();
  }

  // ---------------------------------------------------------------------------
  // Inventory adjustment

  /** `Math.Max(0, quantity + delta)`, the addition in unchecked 32-bit arithmetic. */
  function AdjustQuantity(quantity: int, delta: int): (r: int)
    ensures 0 <= r <= MaxInt32
    ensures IsInt32(quantity + delta) ==> r == Max(0, quantity + delta)
  {
    Max(0, Wrap32(quantity + delta))
  }

  /** The adjustment applied to the first variant carrying `sku`; the others unchanged. */
  function AdjustedVariants(vs: seq<ProductVariant>, sku: string, delta: int): seq<ProductVariant>
  {
    match SkuIndex(vs, sku)
    case None => vs
    case Some(i) => vs[i := vs[i].(inventoryQuantity := AdjustQuantity(vs[i].inventoryQuantity, delta))]
  }

  /**
   * The adjusted variant is floored at zero, every other variant and every price and
   * SKU is untouched, and an unknown SKU changes nothing.
   */
  lemma AdjustedVariantsFrame(vs: seq<ProductVariant>, sku: string, delta: int)
    ensures var r := AdjustedVariants(vs, sku, delta);
      && |r| == |vs|
      && (forall i :: 0 <= i < |vs| ==> r[i].sku == vs[i].sku && r[i].price == vs[i].price && r[i].id == vs[i].id)
      && (SkuIndex(vs, sku).None? ==> r == vs)
      && (SkuIndex(vs, sku).Some? ==>
            var k := SkuIndex(vs, sku).value;
            r[k] == vs[k].(inventoryQuantity := AdjustQuantity(vs[k].inventoryQuantity, delta)) &&
            r[k].inventoryQuantity >= 0 &&
            forall i :: 0 <= i < |vs| && i != k ==> r[i] == vs[i])
  {
  }

  /** Without wrap-around, total stock moves by the adjusted variant's change and nothing else. */
  lemma AdjustedTotalInventory(vs: seq<ProductVariant>, sku: string, delta: int)
    requires SkuIndex(vs, sku).Some?
    requires IsInt32(vs[SkuIndex(vs, sku).value].inventoryQuantity + delta)
    ensures var q := vs[SkuIndex(vs, sku).value].inventoryQuantity;
            SumQuantities(AdjustedVariants(vs, sku, delta)) == SumQuantities(vs) - q + Max(0, q + delta)
  {
    var k := SkuIndex(vs, sku).value;
    SumQuantitiesUpdate(vs, k, vs[k].(inventoryQuantity := AdjustQuantity(vs[k].inventoryQuantity, delta)));
  }

  /**
   * The addition is unchecked: adding 1 to a stock of 2147483647 wraps to
   * -2147483648 and the floor then resets the stock to 0.
   */
  lemma OverflowResetsStock()
    ensures AdjustQuantity(MaxInt32, 1) == 0
  {
  }

  /**
   * A product instance whose variant list is updated in place, as `UpdateInventory`
   * does to the tracked entity.
   */
  class TrackedProduct {
    var id: Guid
    var title: string
    var description: string
    var vendor: string
    var productType: string
    var tags: seq<string>
    var variants: seq<ProductVariant>
    var images: seq<ProductImage>
    var options: seq<ProductOption>
    var status: string
    var createdAt: DateTime
    var updatedAt: DateTime
    var handle: string
    var publishedAt: Option<DateTime>
    var seoTitle: Option<string>
    var seoDescription: Option<string>

    function Value(): Product
      reads this
    {
      Product(id, title, description, vendor, productType, tags, variants, images, options,
              status, createdAt, updatedAt, handle, publishedAt, seoTitle, seoDescription)
    }

    constructor (p: Product)
      ensures Value() == p
    {
      id, title, description, vendor, productType := p.id, p.title, p.description, p.vendor, p.productType;
      tags, variants, images, options := p.tags, p.variants, p.images, p.options;
      status, createdAt, updatedAt, handle := p.status, p.createdAt, p.updatedAt, p.handle;
      publishedAt, seoTitle, seoDescription := p.publishedAt, p.seoTitle, p.seoDescription;
    }

    /** Adjusts the stock of the first variant carrying `sku`, floored at zero. */
    method UpdateInventory(sku: string, quantity: int)
      modifies this`variants
      ensures variants == AdjustedVariants(old(variants), sku, quantity)
      ensures Value() == old(Value()).(variants := variants)
    {
      var found := SkuIndex(variants, sku);
      if found.Some? {
        var i := found.value;
        var v := variants[i];
        variants := variants[i := v.(inventoryQuantity := Max(0, Wrap32(v.inventoryQuantity + quantity)))];
      }
    }
  }
}
