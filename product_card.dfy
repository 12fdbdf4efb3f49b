/**
 * The product card on the storefront: it recomputes the main image, the price
 * range and availability from the product's lists, and shows at most three tags.
 */
module ProductCard {
  import opened Wrappers
  import opened Primitives
  import Query
  import ProductEntities
  import opened ProductService

  /** A JavaScript number as `Math.min` and `Math.max` see it: an empty argument list gives an infinity. */
  datatype Extended = NegInfinity | Finite(v: int) | PosInfinity

  function Prices(vs: seq<ProductVariantDto>): (r: seq<Money>)
    ensures |r| == |vs| && forall i :: 0 <= i < |vs| ==> r[i] == vs[i].price
  {
    seq(|vs|, i requires 0 <= i < |vs| => vs[i].price)
  }

  /** `Math.min(...xs)`. */
  function MathMin(xs: seq<int>): (r: Extended)
    ensures r == PosInfinity <==> xs == []
    ensures r != PosInfinity ==> r.Finite? && r.v in xs && forall i :: 0 <= i < |xs| ==> r.v <= xs[i]
  {
    if xs == [] then PosInfinity
    else if |xs| == 1 then Finite(xs[0])
    else
      var m := MathMin(xs[1..]).v;
      assert m in xs;
      Finite(if xs[0] <= m then xs[0] else m)
  }

  /** `Math.max(...xs)`. */
  function MathMax(xs: seq<int>): (r: Extended)
    ensures r == NegInfinity <==> xs == []
    ensures r != NegInfinity ==> r.Finite? && r.v in xs && forall i :: 0 <= i < |xs| ==> xs[i] <= r.v
  {
    if xs == [] then NegInfinity
    else if |xs| == 1 then Finite(xs[0])
    else
      var m := MathMax(xs[1..]).v;
      assert m in xs;
      Finite(if xs[0] >= m then xs[0] else m)
  }

  /** `images.find(img => img.position === 1) || images[0]`. */
  function CardMainImage(images: seq<ProductImageDto>): (r: Option<ProductImageDto>)
    ensures r.None? <==> images == []
    ensures r.Some? ==> r.value in images
    ensures r.Some? && r.value.position != 1 ==> r.value == images[0] && forall i :: 0 <= i < |images| ==> images[i].position != 1
  {
    match Query.FirstMatch(images, (img: ProductImageDto) => img.position == 1)
    case Some(i) => Some(images[i])
    case None => if images == [] then None else Some(images[0])
  }

  /** `variants.some(v => v.isAvailable)`. */
  function CardAvailable(vs: seq<ProductVariantDto>): (r: bool)
    ensures r <==> exists i :: 0 <= i < |vs| && vs[i].isAvailable
  {
    Query.FirstMatch(vs, (v: ProductVariantDto) => v.isAvailable).Some?
  }

  /** What the price line shows: one price, or a range from the least to the greatest. */
  datatype PriceLabel = Single(price: Extended) | Range(low: Extended, high: Extended)

  function CardPrice(vs: seq<ProductVariantDto>): PriceLabel
  {
    var lo := MathMin(Prices(vs));
    var hi := MathMax(Prices(vs));
    if lo == hi then Single(lo) else Range(lo, hi)
  }

  /**
   * A single price is shown exactly when there are variants and they all cost the
   * same; without variants the card shows the range from +Infinity to -Infinity.
   */
  lemma SinglePriceIffUniform(vs: seq<ProductVariantDto>)
    ensures CardPrice(vs).Single? <==> vs != [] && forall i :: 0 <= i < |vs| ==> vs[i].price == vs[0].price
    ensures CardPrice(vs).Single? ==> CardPrice(vs).price == Finite(vs[0].price)
    ensures vs == [] ==> CardPrice(vs) == Range(PosInfinity, NegInfinity)
    ensures CardPrice(vs).Range? && vs != [] ==> CardPrice(vs).low.Finite? && CardPrice(vs).high.Finite? &&
                                                 CardPrice(vs).low.v < CardPrice(vs).high.v
  {
    var ps := Prices(vs);
    if vs != [] {
      var lo := MathMin(ps);
      var hi := MathMax(ps);
      if forall i :: 0 <= i < |vs| ==> vs[i].price == vs[0].price {
        assert lo.v in ps && hi.v in ps;
      } else {
        var i :| 0 <= i < |vs| && vs[i].price != vs[0].price;
        assert lo.v <= ps[i] && lo.v <= ps[0] && ps[i] <= hi.v && ps[0] <= hi.v;
      }
    }
  }

  /** The stock label: "In Stock" exactly when some variant is available. */
  function StockLabel(vs: seq<ProductVariantDto>): string
  {
    if CardAvailable(vs) then "In Stock" else "Out of Stock"
  }

  /** On a product from the product service the card picks the main image the server picked. */
  lemma CardMainImageAgrees(p: ProductEntities.Product)
    ensures CardMainImage(MapToDto(p).images) == MapToDto(p).mainImage
  {
    var d := MapToDto(p);
    assert forall i :: 0 <= i < |d.images| ==> d.images[i] == ImageDto(p.images[i]);
    match Query.FirstMatch(p.images, (img: ProductEntities.ProductImage) => img.position == 1)
    case Some(i) => {
      assert d.images[i].position == 1;
      match Query.FirstMatch(d.images, (img: ProductImageDto) => img.position == 1) {
        case Some(j) =>
          assert p.images[j].position == 1;
          assert j == i;
        case None =>
      }
    }
    case None => {
      assert forall i :: 0 <= i < |d.images| ==> d.images[i].position == p.images[i].position;
    }
  }

  /** On a product from the product service the card's availability and stock label match the server's flag. */
  lemma CardAvailableAgrees(p: ProductEntities.Product)
    ensures CardAvailable(MapToDto(p).variants) == MapToDto(p).isAvailable
    ensures StockLabel(MapToDto(p).variants) == "In Stock" <==> MapToDto(p).isAvailable
  {
    DtoConsistent(p);
  }

  /** `Math.min` and `Math.max` give the least and greatest element of a non-empty list. */
  lemma ExtremesAreUnique(xs: seq<int>, lo: int, hi: int)
    requires lo in xs && forall i :: 0 <= i < |xs| ==> lo <= xs[i]
    requires hi in xs && forall i :: 0 <= i < |xs| ==> xs[i] <= hi
    ensures MathMin(xs) == Finite(lo) && MathMax(xs) == Finite(hi)
  {
    var a :| 0 <= a < |xs| && xs[a] == MathMin(xs).v;
    var b :| 0 <= b < |xs| && xs[b] == MathMax(xs).v;
  }

  /** With variants, the card's least and greatest price are the server's. */
  lemma CardPricesAgree(p: ProductEntities.Product)
    requires p.variants != []
    ensures MathMin(Prices(MapToDto(p).variants)) == Finite(MapToDto(p).minPrice)
    ensures MathMax(Prices(MapToDto(p).variants)) == Finite(MapToDto(p).maxPrice)
  {
    var d := MapToDto(p);
    assert d.variants == VariantDtos(p.variants) && d.minPrice == p.MinPrice() && d.maxPrice == p.MaxPrice();
    VariantPriceExtremes(p);
  }

  lemma VariantPriceExtremes(p: ProductEntities.Product)
    requires p.variants != []
    ensures MathMin(Prices(VariantDtos(p.variants))) == Finite(p.MinPrice())
    ensures MathMax(Prices(VariantDtos(p.variants))) == Finite(p.MaxPrice())
  {
    var ps := Prices(VariantDtos(p.variants));
    assert forall i :: 0 <= i < |ps| ==> ps[i] == p.variants[i].price;
    var i :| 0 <= i < |p.variants| && p.variants[i].price == p.MinPrice();
    var j :| 0 <= j < |p.variants| && p.variants[j].price == p.MaxPrice();
    assert ps[i] == p.MinPrice() && ps[j] == p.MaxPrice();
    ExtremesAreUnique(ps, p.MinPrice(), p.MaxPrice());
  }

  // ---------------------------------------------------------------------------
  // Tags

  /** The tag row is shown only when the product has tags. */
  predicate TagsShown(tags: seq<string>) { |tags| > 0 }

  /** `tags.slice(0, 3)`. */
  function ShownTags(tags: seq<string>): (r: seq<string>)
    ensures |r| == if |tags| < 3 then |tags| else 3
    ensures tags == r + tags[|r|..]
  {
    if |tags| < 3 then tags else tags[..3]
  }

  /** The "+N more" label: present exactly when more than three tags exist. */
  function MoreCount(tags: seq<string>): (r: Option<nat>)
    ensures r.Some? <==> |tags| > 3
  {
    if |tags| > 3 then Some(|tags| - 3) else None
  }

  /** The shown tags and the "+N more" count together account for every tag. */
  lemma TagsAccounted(tags: seq<string>)
    ensures |ShownTags(tags)| + (if MoreCount(tags).Some? then MoreCount(tags).value else 0) == |tags|
    ensures MoreCount(tags).Some? ==> MoreCount(tags).value == |tags[|ShownTags(tags)|..]|
  {
  }
}
