/**
 * The database context: the three tables of the store, the comma converter that
 * persists `Tags` and option `Values`, and the constraints the schema declares
 * (primary keys, unique indexes, and foreign keys that cascade or restrict).
 */
module DbContext {
  import opened Wrappers
  import opened Primitives
  import Query
  import opened ProductEntities
  import opened UserEntities
  import opened OrderEntities

  // ---------------------------------------------------------------------------
  // The list-of-strings column converter

  /** `string.Join(',', v)`. */
  function Join(v: seq<string>): (r: string)
    ensures r == "" <==> (v == [] || (|v| == 1 && v[0] == ""))
  {
    if v == [] then "" else if |v| == 1 then v[0] else v[0] + "," + Join(v[1..])
  }

  /** The comma-separated fields of `s`, empty ones included; `current` is the field being read. */
  function Fields(s: string, current: string): (r: seq<string>)
    ensures r != []
    decreases |s|
  {
    if s == [] then [current]
    else if s[0] == ',' then [current] + Fields(s[1..], "")
    else Fields(s[1..], current + [s[0]])
  }

  /** `v.Split(',', StringSplitOptions.RemoveEmptyEntries)`. */
  function Split(s: string): (r: seq<string>)
    ensures forall i :: 0 <= i < |r| ==> r[i] != "" && ',' !in r[i]
  {
    var fs := Fields(s, "");
    FieldsCommaFree(s, "");
    var r := Query.FilterBy(fs, (t: string) => t != "");
    assert forall i :: 0 <= i < |r| ==> r[i] in fs;
    r
  }

  /** A list the converter can store: no empty element and no element containing ','. */
  predicate Storable(v: seq<string>)
  {
    forall i :: 0 <= i < |v| ==> v[i] != "" && ',' !in v[i]
  }

  /** What reading back a stored list returns. */
  function Persisted(v: seq<string>): (r: seq<string>)
    ensures Storable(r)
  {
    Split(Join(v))
  }

  lemma {:induction false} FieldsCommaFree(s: string, current: string)
    requires ',' !in current
    ensures forall t :: t in Fields(s, current) ==> ',' !in t
    decreases |s|
  {
    if s != [] {
      if s[0] == ',' {
        FieldsCommaFree(s[1..], "");
      } else {
        FieldsCommaFree(s[1..], current + [s[0]]);
      }
    }
  }

  /** Reading past a comma-free word appends it to the current field. */
  lemma {:induction false} FieldsWord(w: string, rest: string, current: string)
    requires ',' !in w
    ensures Fields(w + rest, current) == Fields(rest, current + w)
    decreases |w|
  {
    if w == [] {
      assert w + rest == rest && current + w == current;
    } else {
      assert (w + rest)[0] == w[0] && (w + rest)[1..] == w[1..] + rest;
      assert current + [w[0]] + w[1..] == current + w;
      FieldsWord(w[1..], rest, current + [w[0]]);
    }
  }

  /** Splitting a join of comma-free elements gives back every element, empty ones too. */
  lemma {:induction false} FieldsOfJoin(v: seq<string>)
    requires v != [] && forall i :: 0 <= i < |v| ==> ',' !in v[i]
    ensures Fields(Join(v), "") == v
  {
    if |v| == 1 {
      FieldsWord(v[0], "", "");
      assert v[0] + "" == v[0] && "" + v[0] == v[0];
    } else {
      assert Join(v) == v[0] + ("," + Join(v[1..]));
      FieldsWord(v[0], "," + Join(v[1..]), "");
      assert "" + v[0] == v[0];
      assert ("," + Join(v[1..]))[1..] == Join(v[1..]);
      FieldsOfJoin(v[1..]);
      assert v == [v[0]] + v[1..];
    }
  }

  lemma {:induction false} FilterKeepsAll(v: seq<string>)
    requires forall i :: 0 <= i < |v| ==> v[i] != ""
    ensures Query.FilterBy(v, (t: string) => t != "") == v
  {
    if v != [] {
      FilterKeepsAll(v[1..]);
      assert v == [v[0]] + v[1..];
    }
  }

  /** The round trip through the column is exact iff no element is empty or contains ','. */
  lemma RoundTrip(v: seq<string>)
    ensures Split(Join(v)) == v <==> Storable(v)
  {
    if Storable(v) && v != [] {
      FieldsOfJoin(v);
      FilterKeepsAll(v);
    }
  }

  /** The empty list is stored as the empty string and reads back empty. */
  lemma EmptyRoundTrip()
    ensures Join([]) == "" && Split("") == []
  {
    assert Fields("", "") == [""];
  }

  /** A tag with a comma reads back as two tags. */
  lemma CommaSplitsTag()
    ensures Split(Join(["a,b"])) == ["a", "b"]
  {
    assert Fields("a,b", "") == ["a", "b"] by {
      assert "a,b"[1..] == ",b" && ",b"[1..] == "b" && "b"[1..] == [];
      assert "" + ['a'] == "a" && "" + ['b'] == "b";
    }
    assert Query.FilterBy(["a", "b"], (t: string) => t != "") == ["a", "b"] by {
      FilterKeepsAll(["a", "b"]);
    }
  }

  /** Reading back is stable: a list read back once survives further round trips. */
  lemma PersistedIsFixpoint(v: seq<string>)
    ensures Persisted(Persisted(v)) == Persisted(v)
  {
    RoundTrip(Persisted(v));
  }

  // ---------------------------------------------------------------------------
  // Rows as stored

  /** A product as its rows store it: children point at it and lists went through the converter. */
  function StoredProduct(p: Product): (r: Product)
    ensures r.id == p.id && r.handle == p.handle && |r.variants| == |p.variants|
  {
    p.(tags := Persisted(p.tags),
       variants := seq(|p.variants|, i requires 0 <= i < |p.variants| => p.variants[i].(productId := p.id)),
       images := seq(|p.images|, i requires 0 <= i < |p.images| => p.images[i].(productId := p.id)),
       options := seq(|p.options|, i requires 0 <= i < |p.options| =>
                      p.options[i].(productId := p.id, values := Persisted(p.options[i].values))))
  }

  /** An order as its rows store it: every item points at it. */
  function StoredOrder(o: Order): (r: Order)
    ensures r.id == o.id && r.orderNumber == o.orderNumber && r.userId == o.userId
  {
    o.(orderItems := seq(|o.orderItems|, i requires 0 <= i < |o.orderItems| => o.orderItems[i].(orderId := o.id)))
  }

  ghost predicate ProductRowsLinked(p: Product)
  {
    && Storable(p.tags)
    && (forall v :: v in p.variants ==> v.productId == p.id)
    && (forall img :: img in p.images ==> img.productId == p.id)
    && (forall opt :: opt in p.options ==> opt.productId == p.id && Storable(opt.values))
  }

  lemma StoredProductLinked(p: Product)
    ensures ProductRowsLinked(StoredProduct(p))
  {
  }

  ghost function ProductIds(ps: seq<Product>): set<Guid>
  {
    set p | p in ps :: p.id
  }

  ghost function VariantIds(ps: seq<Product>): set<Guid>
  {
    set p, v | p in ps && v in p.variants :: v.id
  }

  ghost function UserIds(us: seq<User>): set<Guid>
  {
    set u | u in us :: u.id
  }

  // ---------------------------------------------------------------------------
  // Keys of child rows

  /** No key occurs twice. */
  predicate Distinct(s: seq<Guid>)
  {
    forall i, j :: 0 <= i < j < |s| ==> s[i] != s[j]
  }

  /** One child table's key column: the keys `keys` gives each row, row after row. */
  function Flatten<T>(rows: seq<T>, keys: T -> seq<Guid>): (r: seq<Guid>)
  {
    if rows == [] then [] else keys(rows[0]) + Flatten(rows[1..], keys)
  }

  function VariantKeys(p: Product): seq<Guid>
  {
    seq(|p.variants|, i requires 0 <= i < |p.variants| => p.variants[i].id)
  }

  function ImageKeys(p: Product): seq<Guid>
  {
    seq(|p.images|, i requires 0 <= i < |p.images| => p.images[i].id)
  }

  function OptionKeys(p: Product): seq<Guid>
  {
    seq(|p.options|, i requires 0 <= i < |p.options| => p.options[i].id)
  }

  function ItemKeys(o: Order): seq<Guid>
  {
    seq(|o.orderItems|, i requires 0 <= i < |o.orderItems| => o.orderItems[i].id)
  }

  /** The primary keys of `ProductVariants`, `ProductImages` and `ProductOptions`, each unique in its table. */
  predicate ChildKeysDistinct(ps: seq<Product>)
  {
    Distinct(Flatten(ps, VariantKeys)) && Distinct(Flatten(ps, ImageKeys)) && Distinct(Flatten(ps, OptionKeys))
  }

  /** The primary key of `OrderItems` is unique in its table. */
  predicate ItemKeysDistinct(os: seq<Order>)
  {
    Distinct(Flatten(os, ItemKeys))
  }

  lemma {:induction false} FlattenConcat<T>(a: seq<T>, b: seq<T>, keys: T -> seq<Guid>)
    ensures Flatten(a + b, keys) == Flatten(a, keys) + Flatten(b, keys)
  {
    if a == [] {
      assert a + b == b;
    } else {
      assert (a + b)[0] == a[0];
      assert (a + b)[1..] == a[1..] + b;
      FlattenConcat(a[1..], b, keys);
    }
  }

  /** The rows around row `k`, and the same rows with row `k` replaced by `x`. */
  lemma SplitAround<T>(rows: seq<T>, k: nat, x: T)
    requires k < |rows|
    ensures rows == rows[..k] + ([rows[k]] + rows[k + 1..])
    ensures rows[k := x] == rows[..k] + ([x] + rows[k + 1..])
    ensures ([rows[k]] + rows[k + 1..])[0] == rows[k] && ([rows[k]] + rows[k + 1..])[1..] == rows[k + 1..]
    ensures ([x] + rows[k + 1..])[0] == x && ([x] + rows[k + 1..])[1..] == rows[k + 1..]
    ensures Query.RemoveAt(rows, k) == rows[..k] + rows[k + 1..]
  {
  }

  /** The key column around row `k`: the keys before it, its own, and the keys after it. */
  lemma FlattenSplit<T>(rows: seq<T>, k: nat, keys: T -> seq<Guid>)
    requires k < |rows|
    ensures Flatten(rows, keys) == Flatten(rows[..k], keys) + keys(rows[k]) + Flatten(rows[k + 1..], keys)
    ensures Flatten(Query.RemoveAt(rows, k), keys) == Flatten(rows[..k], keys) + Flatten(rows[k + 1..], keys)
  {
    SplitAround(rows, k, rows[k]);
    FlattenConcat(rows[..k], [rows[k]] + rows[k + 1..], keys);
    FlattenConcat(rows[..k], rows[k + 1..], keys);
  }

  lemma FlattenOne<T>(x: T, keys: T -> seq<Guid>)
    ensures Flatten([x], keys) == keys(x)
  {
    assert [x][0] == x && [x][1..] == [];
    assert keys(x) + [] == keys(x);
  }

  /** Appending a row appends its keys. */
  lemma FlattenAppend<T>(rows: seq<T>, x: T, keys: T -> seq<Guid>)
    ensures Flatten(rows + [x], keys) == Flatten(rows, keys) + keys(x)
  {
    FlattenConcat(rows, [x], keys);
    assert [x][1..] == [];
  }

  /** Two sequences without repeats whose keys are disjoint concatenate without repeats, and back. */
  lemma DistinctConcat(s: seq<Guid>, t: seq<Guid>)
    ensures Distinct(s + t) <==> Distinct(s) && Distinct(t) && forall i, j :: 0 <= i < |s| && 0 <= j < |t| ==> s[i] != t[j]
  {
    var st := s + t;
    if Distinct(s) && Distinct(t) && forall i, j :: 0 <= i < |s| && 0 <= j < |t| ==> s[i] != t[j] {
      forall i, j | 0 <= i < j < |st| ensures st[i] != st[j] {
        if j < |s| {
          assert st[i] == s[i] && st[j] == s[j];
        } else if i < |s| {
          assert st[i] == s[i] && st[j] == t[j - |s|];
        } else {
          assert st[i] == t[i - |s|] && st[j] == t[j - |s|];
        }
      }
    }
    if Distinct(st) {
      forall i, j | 0 <= i < j < |s| ensures s[i] != s[j] {
        assert st[i] == s[i] && st[j] == s[j];
      }
      forall i, j | 0 <= i < j < |t| ensures t[i] != t[j] {
        assert st[|s| + i] == t[i] && st[|s| + j] == t[j];
      }
      forall i, j | 0 <= i < |s| && 0 <= j < |t| ensures s[i] != t[j] {
        assert st[i] == s[i] && st[|s| + j] == t[j];
      }
    }
  }

  /** Replacing one row by a row with the same child keys keeps the key column. */
  lemma FlattenReplace<T>(rows: seq<T>, k: nat, x: T, keys: T -> seq<Guid>)
    requires k < |rows| && keys(x) == keys(rows[k])
    ensures Flatten(rows[k := x], keys) == Flatten(rows, keys)
  {
    SplitAround(rows, k, x);
    FlattenConcat(rows[..k], [rows[k]] + rows[k + 1..], keys);
    FlattenConcat(rows[..k], [x] + rows[k + 1..], keys);
  }

  /** Removing a row (and, by cascade, its children) keeps the remaining keys free of repeats. */
  lemma RemoveKeepsDistinct<T>(rows: seq<T>, k: nat, keys: T -> seq<Guid>)
    requires k < |rows| && Distinct(Flatten(rows, keys))
    ensures Distinct(Flatten(Query.RemoveAt(rows, k), keys))
  {
    FlattenSplit(rows, k, keys);
    DropMiddle(Flatten(rows[..k], keys), keys(rows[k]), Flatten(rows[k + 1..], keys));
  }

  lemma DropMiddle(a: seq<Guid>, b: seq<Guid>, c: seq<Guid>)
    requires Distinct(a + b + c)
    ensures Distinct(a + c)
  {
    var s, t := a + b + c, a + c;
    forall i, j | 0 <= i < j < |t| ensures t[i] != t[j] {
      var i0 := if i < |a| then i else i + |b|;
      var j0 := if j < |a| then j else j + |b|;
      assert t[i] == s[i0] && t[j] == s[j0] && i0 < j0;
    }
  }

  /** `ks` repeats no key and shares none with `column`. */
  predicate FreshKeys(column: seq<Guid>, ks: seq<Guid>)
  {
    Distinct(ks) && forall i :: 0 <= i < |ks| ==> ks[i] !in column
  }

  /** A key column without repeats stays so after appending exactly when the new keys are fresh. */
  lemma AppendDistinct(column: seq<Guid>, ks: seq<Guid>)
    requires Distinct(column)
    ensures Distinct(column + ks) <==> FreshKeys(column, ks)
  {
    DistinctConcat(column, ks);
  }

  /**
   * On a store whose child keys are unique, adding a product keeps them unique
   * exactly when its variant, image and option keys are fresh; storing it
   * changes none of them.
   */
  lemma AddedChildKeys(ps: seq<Product>, p: Product)
    requires ChildKeysDistinct(ps)
    ensures ChildKeysDistinct(ps + [p]) <==>
              FreshKeys(Flatten(ps, VariantKeys), VariantKeys(p)) &&
              FreshKeys(Flatten(ps, ImageKeys), ImageKeys(p)) &&
              FreshKeys(Flatten(ps, OptionKeys), OptionKeys(p))
    ensures ChildKeysDistinct(ps + [StoredProduct(p)]) == ChildKeysDistinct(ps + [p])
  {
    StoredProductKeys(p);
    FlattenAppend(ps, p, VariantKeys);
    FlattenAppend(ps, p, ImageKeys);
    FlattenAppend(ps, p, OptionKeys);
    FlattenAppend(ps, StoredProduct(p), VariantKeys);
    FlattenAppend(ps, StoredProduct(p), ImageKeys);
    FlattenAppend(ps, StoredProduct(p), OptionKeys);
    AppendDistinct(Flatten(ps, VariantKeys), VariantKeys(p));
    AppendDistinct(Flatten(ps, ImageKeys), ImageKeys(p));
    AppendDistinct(Flatten(ps, OptionKeys), OptionKeys(p));
  }

  /** Replacing a product by one with the same child keys keeps the child key columns. */
  lemma ReplaceKeepsChildKeys(ps: seq<Product>, k: nat, q: Product)
    requires k < |ps|
    requires VariantKeys(q) == VariantKeys(ps[k]) && ImageKeys(q) == ImageKeys(ps[k]) && OptionKeys(q) == OptionKeys(ps[k])
    ensures ChildKeysDistinct(ps[k := q]) == ChildKeysDistinct(ps)
  {
    FlattenReplace(ps, k, q, VariantKeys);
    FlattenReplace(ps, k, q, ImageKeys);
    FlattenReplace(ps, k, q, OptionKeys);
  }

  /** Removing a product, with its children, keeps the child keys unique. */
  lemma RemoveKeepsChildKeys(ps: seq<Product>, k: nat)
    requires k < |ps| && ChildKeysDistinct(ps)
    ensures ChildKeysDistinct(Query.RemoveAt(ps, k))
  {
    RemoveKeepsDistinct(ps, k, VariantKeys);
    RemoveKeepsDistinct(ps, k, ImageKeys);
    RemoveKeepsDistinct(ps, k, OptionKeys);
  }

  /** Adding an order keeps item keys unique exactly when its item keys are fresh; storing it changes none. */
  lemma AddedItemKeys(os: seq<Order>, o: Order)
    requires ItemKeysDistinct(os)
    ensures ItemKeysDistinct(os + [o]) <==> FreshKeys(Flatten(os, ItemKeys), ItemKeys(o))
    ensures ItemKeysDistinct(os + [StoredOrder(o)]) == ItemKeysDistinct(os + [o])
  {
    StoredOrderKeys(o);
    FlattenAppend(os, o, ItemKeys);
    FlattenAppend(os, StoredOrder(o), ItemKeys);
    AppendDistinct(Flatten(os, ItemKeys), ItemKeys(o));
  }

  /** Storing a product changes none of its child keys. */
  lemma StoredProductKeys(p: Product)
    ensures VariantKeys(StoredProduct(p)) == VariantKeys(p)
    ensures ImageKeys(StoredProduct(p)) == ImageKeys(p)
    ensures OptionKeys(StoredProduct(p)) == OptionKeys(p)
  {
  }

  /** Storing an order changes none of its item keys. */
  lemma StoredOrderKeys(o: Order)
    ensures ItemKeys(StoredOrder(o)) == ItemKeys(o)
  {
  }

  /**
   * Primary keys and the unique `Handle` index; every product's rows linked to it;
   * the keys of variant, image and option rows unique in their tables.
   */
  ghost predicate ValidProducts(ps: seq<Product>)
  {
    && (forall i, j :: 0 <= i < j < |ps| ==> ps[i].id != ps[j].id && ps[i].handle != ps[j].handle)
    && (forall i :: 0 <= i < |ps| ==> ProductRowsLinked(ps[i]))
    && ChildKeysDistinct(ps)
  }

  /**
   * Primary keys and the unique `Email` index. SQLite compares text with BINARY
   * collation, so the index is case-sensitive.
   */
  ghost predicate ValidUsers(us: seq<User>)
  {
    forall i, j :: 0 <= i < j < |us| ==> us[i].id != us[j].id && us[i].email != us[j].email
  }

  /** Every item belongs to its order and references a stored product and variant (restrict). */
  ghost predicate ItemsResolve(o: Order, ps: seq<Product>)
  {
    forall it :: it in o.orderItems ==>
      it.orderId == o.id && it.productId in ProductIds(ps) && it.productVariantId in VariantIds(ps)
  }

  /** Primary keys of orders and items, the unique `OrderNumber` index, and the foreign keys of orders and items. */
  ghost predicate ValidOrders(os: seq<Order>, us: seq<User>, ps: seq<Product>)
  {
    && (forall i, j :: 0 <= i < j < |os| ==> os[i].id != os[j].id && os[i].orderNumber != os[j].orderNumber)
    && (forall i :: 0 <= i < |os| ==> os[i].userId in UserIds(us) && ItemsResolve(os[i], ps))
    && ItemKeysDistinct(os)
  }

  /** The store: one sequence per aggregate root; child rows are nested in their parents. */
  class Database {
    var products: seq<Product>
    var users: seq<User>
    var orders: seq<Order>

    ghost predicate Valid()
      reads this
    {
      ValidProducts(products) && ValidUsers(users) && ValidOrders(orders, users, products)
    }

    constructor ()
      ensures products == [] && users == [] && orders == [] && Valid()
    {
      products, users, orders := [], [], [];
    }
  }

  /** Failures `SaveChangesAsync` reports, as database constraint errors. */
  datatype DbError =
    | UniqueViolation(index: string)
    | ForeignKeyViolation(relation: string)
    | ConcurrencyViolation

  /** The `Sku` index is not unique: two variants of one valid product may share a SKU. */
  lemma SkuNotUnique(p: Product, v: ProductVariant)
    requires p.variants == [v, v.(id := v.id + 1)] && p.images == [] && p.options == []
    requires v.productId == p.id && Storable(p.tags)
    ensures ValidProducts([p]) && p.variants[0].sku == p.variants[1].sku
  {
    FlattenOne(p, VariantKeys);
    FlattenOne(p, ImageKeys);
    FlattenOne(p, OptionKeys);
    var ks := VariantKeys(p);
    assert |ks| == 2 && ks[0] == v.id && ks[1] == v.id + 1;
  }
}
