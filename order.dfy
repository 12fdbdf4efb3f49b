/** Orders, their line items, and the status predicates computed from them. */
module OrderEntities {
  import opened Wrappers
  import opened Primitives

  /** One of the two address blocks (shipping or billing) an order carries. */
  datatype Address = Address(
    firstName: string,
    lastName: string,
    address1: string,
    address2: Option<string>,
    city: string,
    state: string,
    zipCode: string,
    country: string,
    phone: string)

  const EmptyAddress := Address("", "", "", None, "", "", "", "", "")

  datatype OrderItem = OrderItem(
    id: Guid,
    orderId: Guid,
    productId: Guid,
    productVariantId: Guid,
    productTitle: string,
    sku: string,
    quantity: int,
    unitPrice: Money,
    totalPrice: Money,
    option1: Option<string>,
    option2: Option<string>,
    option3: Option<string>,
    createdAt: DateTime)

  datatype Order = Order(
    id: Guid,
    orderNumber: string,
    userId: Guid,
    status: string,
    subtotal: Money,
    taxAmount: Money,
    shippingAmount: Money,
    totalAmount: Money,
    currency: string,
    shipping: Address,
    billing: Address,
    paymentMethod: Option<string>,
    paymentStatus: Option<string>,
    transactionId: Option<string>,
    shippingMethod: Option<string>,
    trackingNumber: Option<string>,
    trackingUrl: Option<string>,
    shippedAt: Option<DateTime>,
    deliveredAt: Option<DateTime>,
    customerNotes: Option<string>,
    internalNotes: Option<string>,
    createdAt: DateTime,
    updatedAt: DateTime,
    orderItems: seq<OrderItem>)
  {
    /** Units ordered across all items. */
    function TotalItems(): int { SumItemQuantities(orderItems) }

    /** `OrderItems.Sum(i => i.Quantity)` as C# evaluates it: `None` when a partial sum overflows `int`. */
    function CheckedTotalItems(): (r: Option<int>)
      ensures r.Some? ==> r.value == TotalItems() && IsInt32(r.value)
    {
      SumItemQuantitiesIsSum(orderItems);
      CheckedSum(ItemQuantities(orderItems), 0)
    }

    /** Shipped means a tracking number is recorded; the status plays no part. */
    predicate IsShipped() { trackingNumber.Some? && trackingNumber.value != "" }

    predicate IsDelivered() { deliveredAt.Some? }

    predicate IsCancelled() { status == "cancelled" }

    predicate CanBeCancelled() { status == "pending" || status == "confirmed" }

    predicate CanBeShipped() { status == "confirmed" || status == "processing" }
  }

  function SumItemQuantities(items: seq<OrderItem>): int
  {
    if items == [] then 0 else items[0].quantity + SumItemQuantities(items[1..])
  }

  /** The item quantities, in item order. */
  function ItemQuantities(items: seq<OrderItem>): (r: seq<int>)
    ensures |r| == |items| && forall i :: 0 <= i < |items| ==> r[i] == items[i].quantity
  {
    seq(|items|, i requires 0 <= i < |items| => items[i].quantity)
  }

  lemma {:induction false} SumItemQuantitiesIsSum(items: seq<OrderItem>)
    ensures SumItemQuantities(items) == Sum(ItemQuantities(items))
  {
    if items != [] {
      assert ItemQuantities(items)[1..] == ItemQuantities(items[1..]);
      SumItemQuantitiesIsSum(items[1..]);
    }
  }

  /** With non-negative quantities, `TotalItems` throws exactly when the total exceeds `int.MaxValue`. */
  lemma TotalItemsOverflows(o: Order)
    requires forall i :: 0 <= i < |o.orderItems| ==> o.orderItems[i].quantity >= 0
    ensures o.CheckedTotalItems().None? <==> o.TotalItems() > MaxInt32
  {
    SumItemQuantitiesIsSum(o.orderItems);
    CheckedSumOfNaturals(ItemQuantities(o.orderItems), 0);
  }

  /** Two items of `int.MaxValue` units each make the getter throw. */
  lemma TwoFullItemsOverflow(o: Order)
    requires |o.orderItems| == 2
    requires o.orderItems[0].quantity == MaxInt32 && o.orderItems[1].quantity == MaxInt32
    ensures o.CheckedTotalItems().None? && o.TotalItems() == 2 * MaxInt32
  {
    var items := o.orderItems;
    assert items[1..][1..] == [];
    assert SumItemQuantities(items[1..]) == items[1].quantity + SumItemQuantities(items[1..][1..]);
    assert o.TotalItems() == items[0].quantity + SumItemQuantities(items[1..]);
    TotalItemsOverflows(o);
  }

  /** The state of an order built with the entity's initialisers, at instant `now`. */
  function NewOrder(id: Guid, now: DateTime): (r: Order)
    ensures r.status == "pending" && r.currency == "USD"
    ensures r.TotalItems() == 0 && !r.IsShipped() && !r.IsDelivered() && !r.IsCancelled()
    ensures r.CanBeCancelled() && !r.CanBeShipped()
    ensures r.createdAt == now && r.updatedAt == now
  {
    Order(id, "", 0, "pending", 0, 0, 0, 0, "USD", EmptyAddress, EmptyAddress,
          None, None, None, None, None, None, None, None, None, None, now, now, [])
  }

  /** A cancelled order can be neither cancelled again nor shipped. */
  lemma CancelledIsFinal(o: Order)
    requires o.IsCancelled()
    ensures !o.CanBeCancelled() && !o.CanBeShipped()
  {
  }

  /** The two windows overlap in exactly one status, "confirmed". */
  lemma CancelAndShipOverlap(o: Order)
    ensures o.CanBeCancelled() && o.CanBeShipped() <==> o.status == "confirmed"
  {
  }

  /** Changing the status never changes `IsShipped` or `IsDelivered`. */
  lemma ShippedIgnoresStatus(o: Order, s: string)
    ensures o.(status := s).IsShipped() == o.IsShipped()
    ensures o.(status := s).IsDelivered() == o.IsDelivered()
  {
  }

  /** An order marked "shipped" without a tracking number is not `IsShipped`. */
  lemma ShippedStatusWithoutTracking(o: Order)
    requires o.trackingNumber.None?
    ensures var s := o.(status := "shipped"); !s.IsShipped() && !s.CanBeShipped() && !s.CanBeCancelled()
  {
  }

  lemma {:induction false} SumItemQuantitiesConcat(a: seq<OrderItem>, b: seq<OrderItem>)
    ensures SumItemQuantities(a + b) == SumItemQuantities(a) + SumItemQuantities(b)
  {
    if a == [] {
      assert a + b == b;
    } else {
      assert (a + b)[0] == a[0] && (a + b)[1..] == a[1..] + b;
      SumItemQuantitiesConcat(a[1..], b);
    }
  }

  /** Adding an item raises the total by its quantity; with non-negative quantities the total is too. */
  lemma {:induction false} TotalItemsAppend(o: Order, item: OrderItem)
    ensures o.(orderItems := o.orderItems + [item]).TotalItems() == o.TotalItems() + item.quantity
  {
    SumItemQuantitiesConcat(o.orderItems, [item]);
    assert [item][1..] == [];
  }

  lemma {:induction false} TotalItemsNonNegative(items: seq<OrderItem>)
    requires forall i :: 0 <= i < |items| ==> items[i].quantity >= 0
    ensures SumItemQuantities(items) >= 0
  {
    if items != [] {
      TotalItemsNonNegative(items[1..]);
    }
  }
}
