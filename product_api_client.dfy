/**
 * The client's product service: the query string it sends with a product
 * search and with a product count.
 */
module ProductApiClient {
  import opened Wrappers
  import opened ClientText
  import opened UrlParams
  import DbContext

  /** `ProductFilters`: every property optional. */
  datatype ProductFilters = ProductFilters(
    search: Option<string>, category: Option<string>, vendor: Option<string>,
    priceMin: Option<Number>, priceMax: Option<Number>, inStock: Option<bool>,
    tags: Option<seq<string>>, status: Option<string>)

  datatype ProductSortOptions = ProductSortOptions(field: string, direction: string)

  datatype ProductPagination = ProductPagination(page: Number, limit: Number)

  /** A text property taken as a condition: missing and empty are false. */
  function TextArg(v: Option<string>): (r: Option<string>)
    ensures r.Some? <==> v.Some? && v.value != ""
    ensures r.Some? ==> r == v
  {
    if v.Some? && v.value != "" then v else None
  }

  /** A number property taken as a condition: missing, 0 and `NaN` are false; its text is `toString()`. */
  function NumberArg(v: Option<Number>): (r: Option<string>)
    ensures r.Some? <==> v.Some? && v.value.Truthy()
    ensures r.Some? ==> r.value == NumberToString(v.value.value)
  {
    if v.Some? && v.value.Truthy() then Some(v.value.ToText()) else None
  }

  /** A flag taken as a condition: only `true` passes, and prints as "true". */
  function FlagArg(v: Option<bool>): (r: Option<string>)
    ensures r.Some? <==> v == Some(true)
    ensures r.Some? ==> r.value == "true"
  {
    if v == Some(true) then Some("true") else None
  }

  /** An array property taken as a condition: any array, even an empty one, passes, joined by ','. */
  function ListArg(v: Option<seq<string>>): (r: Option<string>)
    ensures r.Some? <==> v.Some?
    ensures r.Some? ==> r.value == DbContext.Join(v.value)
  {
    if v.Some? then Some(DbContext.Join(v.value)) else None
  }

  /** `if (arg) params.append(name, text)`. */
  function Param(name: string, arg: Option<string>): (r: seq<Entry>)
    ensures |r| <= 1
  {
    if arg.Some? then [(name, arg.value)] else []
  }

  /** The filter parameters of a search, in the order they are appended. */
  function FilterQuery(f: ProductFilters): seq<Entry>
  {
    Param("search", TextArg(f.search)) + Param("category", TextArg(f.category)) +
    Param("vendor", TextArg(f.vendor)) + Param("priceMin", NumberArg(f.priceMin)) +
    Param("priceMax", NumberArg(f.priceMax)) + Param("inStock", FlagArg(f.inStock)) +
    Param("tags", ListArg(f.tags)) + Param("status", TextArg(f.status))
  }

  /** The sort and pagination parameters, always appended last. */
  function TailQuery(sort: ProductSortOptions, pagination: ProductPagination): seq<Entry>
  {
    [("sortField", sort.field), ("sortDirection", sort.direction),
     ("page", pagination.page.ToText()), ("limit", pagination.limit.ToText())]
  }

  /** The whole search query, one append after another. */
  function SearchQuery(f: ProductFilters, sort: ProductSortOptions, pagination: ProductPagination): seq<Entry>
  {
    FilterQuery(f) + [("sortField", sort.field)] + [("sortDirection", sort.direction)] +
    [("page", pagination.page.ToText())] + [("limit", pagination.limit.ToText())]
  }

  lemma SearchQuerySplit(f: ProductFilters, sort: ProductSortOptions, pagination: ProductPagination)
    ensures SearchQuery(f, sort, pagination) == FilterQuery(f) + TailQuery(sort, pagination)
  {
    var a, t := FilterQuery(f), TailQuery(sort, pagination);
    assert t == [t[0]] + [t[1]] + [t[2]] + [t[3]];
    assert SearchQuery(f, sort, pagination) == a + [t[0]] + [t[1]] + [t[2]] + [t[3]];
  }

  /** `if (arg) params.append(name, text)` on a live parameter list. */
  method AppendIf(p: SearchParams, name: string, arg: Option<string>)
    modifies p
    ensures p.entries == old(p.entries) + Param(name, arg)
  {
    if arg.Some? {
      p.Append(name, arg.value);
    }
  }

  /** `searchProducts`: the parameters it builds. */
  method SearchProductsQuery(filters: ProductFilters, sort: ProductSortOptions, pagination: ProductPagination)
    returns (params: seq<Entry>)
    ensures params == SearchQuery(filters, sort, pagination)
  {
    var p := new SearchParams();
    AppendIf(p, "search", TextArg(filters.search));
    assert p.entries == Param("search", TextArg(filters.search));
    AppendIf(p, "category", TextArg(filters.category));
    AppendIf(p, "vendor", TextArg(filters.vendor));
    AppendIf(p, "priceMin", NumberArg(filters.priceMin));
    AppendIf(p, "priceMax", NumberArg(filters.priceMax));
    AppendIf(p, "inStock", FlagArg(filters.inStock));
    AppendIf(p, "tags", ListArg(filters.tags));
    AppendIf(p, "status", TextArg(filters.status));
    p.Append("sortField", sort.field);
    p.Append("sortDirection", sort.direction);
    p.Append("page", pagination.page.ToText());
    p.Append("limit", pagination.limit.ToText());
    params := p.entries;
  }

  lemma ParamGet(name: string, arg: Option<string>, n: string)
    ensures FirstValue(Param(name, arg), n) == if n == name then arg else None
  {
  }

  /** The value a search query carries for a filter name. */
  function FilterValue(f: ProductFilters, n: string): Option<string>
  {
    if n == "search" then TextArg(f.search)
    else if n == "category" then TextArg(f.category)
    else if n == "vendor" then TextArg(f.vendor)
    else if n == "priceMin" then NumberArg(f.priceMin)
    else if n == "priceMax" then NumberArg(f.priceMax)
    else if n == "inStock" then FlagArg(f.inStock)
    else if n == "tags" then ListArg(f.tags)
    else if n == "status" then TextArg(f.status)
    else None
  }

  /** `get` on a step of the builder: the earlier parameters answer first. */
  lemma AppendGet(a: seq<Entry>, name: string, arg: Option<string>, n: string)
    ensures FirstValue(a + Param(name, arg), n) ==
              if FirstValue(a, n).Some? then FirstValue(a, n) else if n == name then arg else None
  {
    FirstValueConcat(a, Param(name, arg), n);
  }

  lemma FilterQueryGet(f: ProductFilters, n: string)
    ensures FirstValue(FilterQuery(f), n) == FilterValue(f, n)
  {
    var a1 := Param("search", TextArg(f.search));
    ParamGet("search", TextArg(f.search), n);
    var a2 := a1 + Param("category", TextArg(f.category));
    AppendGet(a1, "category", TextArg(f.category), n);
    var a3 := a2 + Param("vendor", TextArg(f.vendor));
    AppendGet(a2, "vendor", TextArg(f.vendor), n);
    var a4 := a3 + Param("priceMin", NumberArg(f.priceMin));
    AppendGet(a3, "priceMin", NumberArg(f.priceMin), n);
    var a5 := a4 + Param("priceMax", NumberArg(f.priceMax));
    AppendGet(a4, "priceMax", NumberArg(f.priceMax), n);
    var a6 := a5 + Param("inStock", FlagArg(f.inStock));
    AppendGet(a5, "inStock", FlagArg(f.inStock), n);
    var a7 := a6 + Param("tags", ListArg(f.tags));
    AppendGet(a6, "tags", ListArg(f.tags), n);
    AppendGet(a7, "status", TextArg(f.status), n);
    assert FilterQuery(f) == a7 + Param("status", TextArg(f.status));
    if n == "search" {
    } else if n == "category" {
    } else if n == "vendor" {
    } else if n == "priceMin" {
    } else if n == "priceMax" {
    } else if n == "inStock" {
    } else if n == "tags" {
    } else if n == "status" {
    }
  }

  lemma TailGet(sort: ProductSortOptions, pagination: ProductPagination, n: string)
    requires n in {"search", "category", "vendor", "priceMin", "priceMax", "inStock", "tags", "status"}
    ensures FirstValue(TailQuery(sort, pagination), n) == None
  {
  }

  /**
   * What the server receives: each filter exactly when its value is truthy (so a
   * zero or `NaN` price, a `false` flag and an empty text are dropped, while any
   * tag array is sent joined by ','), then sort field, direction, page and limit.
   */
  lemma SearchQueryValues(f: ProductFilters, sort: ProductSortOptions, pagination: ProductPagination, n: string)
    requires n in {"search", "category", "vendor", "priceMin", "priceMax", "inStock", "tags", "status"}
    ensures FirstValue(SearchQuery(f, sort, pagination), n) == FilterValue(f, n)
  {
    SearchQuerySplit(f, sort, pagination);
    FirstValueConcat(FilterQuery(f), TailQuery(sort, pagination), n);
    FilterQueryGet(f, n);
    TailGet(sort, pagination, n);
  }

  /** The sort and pagination parameters always close the query, in this order. */
  lemma SearchQueryEnds(f: ProductFilters, sort: ProductSortOptions, pagination: ProductPagination)
    ensures var q := SearchQuery(f, sort, pagination);
            && |q| >= 4 && q[|q| - 4..] == TailQuery(sort, pagination)
            && |q| <= 12
  {
    SearchQuerySplit(f, sort, pagination);
  }

  /**
   * Falsy filter values are not sent: a price bound of 0 or `NaN`, an unset
   * stock flag, an empty search text; an empty tag array is still sent, as "".
   */
  lemma FalsyFiltersDropped(f: ProductFilters, sort: ProductSortOptions, pagination: ProductPagination)
    ensures f.priceMin == Some(Int(0)) || f.priceMin == Some(NaN) ==>
              FirstValue(SearchQuery(f, sort, pagination), "priceMin") == None
    ensures f.inStock == Some(false) ==> FirstValue(SearchQuery(f, sort, pagination), "inStock") == None
    ensures f.search == Some("") ==> FirstValue(SearchQuery(f, sort, pagination), "search") == None
    ensures f.tags == Some([]) ==> FirstValue(SearchQuery(f, sort, pagination), "tags") == Some("")
  {
    SearchQueryValues(f, sort, pagination, "priceMin");
    SearchQueryValues(f, sort, pagination, "inStock");
    SearchQueryValues(f, sort, pagination, "search");
    SearchQueryValues(f, sort, pagination, "tags");
  }

  /** `getProductCount`: only the text filters are forwarded. */
  function CountQuery(filters: Option<ProductFilters>): seq<Entry>
  {
    if filters.None? then []
    else
      var f := filters.value;
      Param("search", TextArg(f.search)) + Param("category", TextArg(f.category)) +
      Param("vendor", TextArg(f.vendor)) + Param("status", TextArg(f.status))
  }

  method GetProductCountQuery(filters: Option<ProductFilters>) returns (params: seq<Entry>)
    ensures params == CountQuery(filters)
  {
    var p := new SearchParams();
    if filters.Some? {
      var f := filters.value;
      AppendIf(p, "search", TextArg(f.search));
      assert p.entries == Param("search", TextArg(f.search));
      AppendIf(p, "category", TextArg(f.category));
      AppendIf(p, "vendor", TextArg(f.vendor));
      AppendIf(p, "status", TextArg(f.status));
    }
    params := p.entries;
  }

  /**
   * The count query carries search, category, vendor and status with the values
   * the search query would carry for the same filters, and nothing else.
   */
  lemma CountQueryAgrees(f: ProductFilters, sort: ProductSortOptions, pagination: ProductPagination, n: string)
    ensures n in {"search", "category", "vendor", "status"} ==>
              FirstValue(CountQuery(Some(f)), n) == FirstValue(SearchQuery(f, sort, pagination), n)
    ensures n !in {"search", "category", "vendor", "status"} ==> FirstValue(CountQuery(Some(f)), n) == None
  {
    var a1 := Param("search", TextArg(f.search));
    ParamGet("search", TextArg(f.search), n);
    var a2 := a1 + Param("category", TextArg(f.category));
    AppendGet(a1, "category", TextArg(f.category), n);
    var a3 := a2 + Param("vendor", TextArg(f.vendor));
    AppendGet(a2, "vendor", TextArg(f.vendor), n);
    AppendGet(a3, "status", TextArg(f.status), n);
    if n in {"search", "category", "vendor", "status"} {
      SearchQueryValues(f, sort, pagination, n);
    }
  }

  /** Without filters the count query is empty. */
  lemma CountWithoutFilters()
    ensures CountQuery(None) == []
  {
  }
}
