/**
 * The order repository over the in-memory store: lookups, the filtered, sorted
 * and paged search joined with each order's user, counts, revenue, order-number
 * generation, the field updates, and add and delete.
 */
module OrderRepository {
  import opened Wrappers
  import opened Primitives
  import opened Text
  import Query
  import opened ProductEntities
  import opened UserEntities
  import opened OrderEntities
  import opened DbContext
  import opened OrderNumbers
  import UserRepository

  datatype OrderSearchCriteria = OrderSearchCriteria(
    search: Option<string>,
    status: Option<string>,
    paymentStatus: Option<string>,
    userId: Option<Guid>,
    minTotal: Option<Money>,
    maxTotal: Option<Money>,
    createdFrom: Option<DateTime>,
    createdTo: Option<DateTime>,
    sortBy: Option<string>,
    sortDescending: bool)

  const NoCriteria := OrderSearchCriteria(None, None, None, None, None, None, None, None, None, true)

  // ---------------------------------------------------------------------------
  // Lookups

  function IndexOfId(os: seq<Order>, id: Guid): (r: Option<nat>)
    ensures r.None? <==> forall i :: 0 <= i < |os| ==> os[i].id != id
    ensures r.Some? ==> r.value < |os| && os[r.value].id == id && forall j :: 0 <= j < r.value ==> os[j].id != id
  {
    Query.FirstMatch(os, (o: Order) => o.id == id)
  }

  function GetByIdAsync(os: seq<Order>, id: Guid): (r: Option<Order>)
    ensures r.None? <==> forall i :: 0 <= i < |os| ==> os[i].id != id
    ensures r.Some? ==> r.value in os && r.value.id == id
  {
    match IndexOfId(os, id)
    case Some(i) => Some(os[i])
    case None => None
  }

  /** The order with exactly this number (case-sensitive). */
  function GetByOrderNumberAsync(os: seq<Order>, orderNumber: string): (r: Option<Order>)
    ensures r.None? <==> forall i :: 0 <= i < |os| ==> os[i].orderNumber != orderNumber
    ensures r.Some? ==> r.value in os && r.value.orderNumber == orderNumber
  {
    match Query.FirstMatch(os, (o: Order) => o.orderNumber == orderNumber)
    case Some(i) => Some(os[i])
    case None => None
  }

  function ExistsByOrderNumberAsync(os: seq<Order>, orderNumber: string): (r: bool)
    ensures r <==> exists i :: 0 <= i < |os| && os[i].orderNumber == orderNumber
  {
    GetByOrderNumberAsync(os, orderNumber).Some?
  }

  // ---------------------------------------------------------------------------
  // Search and count

  /** The user an order belongs to, through its `UserId`. */
  function Owner(us: seq<User>, o: Order): Option<User>
  {
    UserRepository.GetByIdAsync(us, o.userId)
  }

  /**
   * Lower-cased `term` occurs in the lower-cased order number, the owner's e-mail
   * or full name, or the shipping first or last name.
   */
  predicate MatchesSearch(us: seq<User>, o: Order, term: string)
  {
    var t := ToLower(term);
    var owner := Owner(us, o);
    || Contains(ToLower(o.orderNumber), t)
    || (owner.Some? && Contains(ToLower(owner.value.email), t))
    || (owner.Some? && Contains(ToLower(owner.value.FullName()), t))
    || Contains(ToLower(o.shipping.firstName), t)
    || Contains(ToLower(o.shipping.lastName), t)
  }

  /** `Where(o => o.PaymentStatus != null && ...)`: an order without a payment status never matches. */
  predicate PaymentStatusIs(o: Order, paymentStatus: string)
  {
    o.paymentStatus.Some? && EqualsIgnoreCase(o.paymentStatus.value, paymentStatus)
  }

  /** Created within the optional bounds, both inclusive. */
  predicate CreatedWithin(o: Order, from: Option<DateTime>, to: Option<DateTime>)
  {
    (from.None? || o.createdAt >= from.value) && (to.None? || o.createdAt <= to.value)
  }

  predicate Matches(us: seq<User>, c: OrderSearchCriteria, o: Order)
  {
    && (IsNullOrEmpty(c.search) || MatchesSearch(us, o, c.search.value))
    && (IsNullOrEmpty(c.status) || EqualsIgnoreCase(o.status, c.status.value))
    && (IsNullOrEmpty(c.paymentStatus) || PaymentStatusIs(o, c.paymentStatus.value))
    && (c.userId.None? || o.userId == c.userId.value)
    && (c.minTotal.None? || o.totalAmount >= c.minTotal.value)
    && (c.maxTotal.None? || o.totalAmount <= c.maxTotal.value)
    && CreatedWithin(o, c.createdFrom, c.createdTo)
  }

  function MatchFn(us: seq<User>, c: OrderSearchCriteria): Order -> bool
  {
    (o: Order) => Matches(us, c, o)
  }

  function Filtered(os: seq<Order>, us: seq<User>, c: OrderSearchCriteria): (r: seq<Order>)
    ensures forall o :: o in r <==> o in os && Matches(us, c, o)
  {
    Query.FilterBy(os, MatchFn(us, c))
  }

  /** The sort column; anything not on the list, or no `SortBy`, sorts by creation time. */
  function SortKey(sortBy: Option<string>, o: Order): Query.Key
  {
    var s := if sortBy.None? then "" else ToLower(sortBy.value);
    if s == "ordernumber" then Query.Text(o.orderNumber)
    else if s == "total" then Query.Num(o.totalAmount)
    else if s == "status" then Query.Text(o.status)
    else if s == "paymentstatus" then (if o.paymentStatus.None? then Query.Null else Query.Text(o.paymentStatus.value))
    else if s == "updatedat" then Query.Num(o.updatedAt)
    else Query.Num(o.createdAt)
  }

  lemma SortKeyFallback(sortBy: string, o: Order)
    ensures ToLower(sortBy) !in {"ordernumber", "total", "status", "paymentstatus", "updatedat"} ==>
              SortKey(Some(sortBy), o) == SortKey(None, o) == Query.Num(o.createdAt)
  {
  }

  function SearchKey(c: OrderSearchCriteria): Order -> Query.Key
  {
    (o: Order) => SortKey(c.sortBy, o)
  }

  function SearchAsync(os: seq<Order>, us: seq<User>, c: OrderSearchCriteria, page: int, pageSize: int)
    : (r: Query.SearchResult<Order>)
    ensures Query.IsPageOfOrdering(r, Filtered(os, us, c), SearchKey(c), c.sortDescending, page, pageSize)
  {
    var matching := Filtered(os, us, c);
    Query.SearchResult(Query.Page(Query.SortBy(matching, SearchKey(c), c.sortDescending), page, pageSize), |matching|)
  }

  function GetCountAsync(os: seq<Order>, us: seq<User>, c: Option<OrderSearchCriteria>): (r: nat)
    ensures r <= |os|
    ensures c.None? ==> r == |os|
  {
    if c.None? then |os| else |Filtered(os, us, c.value)|
  }

  /** The count equals a search's total for the same filters, whatever the sort and page. */
  lemma CountMatchesSearch(os: seq<Order>, us: seq<User>, c: OrderSearchCriteria, page: int, pageSize: int)
    ensures GetCountAsync(os, us, Some(c)) == SearchAsync(os, us, c, page, pageSize).totalCount
    ensures GetCountAsync(os, us, Some(c.(sortBy := None, sortDescending := true))) == GetCountAsync(os, us, Some(c))
  {
    Query.FilterExt(os, MatchFn(us, c.(sortBy := None, sortDescending := true)), MatchFn(us, c));
  }

  /** Every order a search returns passes the filters; the page is sorted and holds the rows the limit lets through. */
  lemma SearchResultsMatch(os: seq<Order>, us: seq<User>, c: OrderSearchCriteria, page: int, pageSize: int)
    ensures var r := SearchAsync(os, us, c, page, pageSize);
            (forall o :: o in r.items ==> o in os && Matches(us, c, o)) &&
            |r.items| == Query.PageLength(|Filtered(os, us, c)|, page, pageSize) &&
            Query.SortedBy(r.items, SearchKey(c), c.sortDescending)
  {
    var r := SearchAsync(os, us, c, page, pageSize);
    Query.PageOfOrderingFacts(r, Filtered(os, us, c), SearchKey(c), c.sortDescending, page, pageSize);
    forall o | o in r.items ensures o in os && Matches(us, c, o) {
      assert o in multiset(r.items);
      assert o in multiset(Filtered(os, us, c));
    }
  }

  /**
   * Status filters ignore case; a payment-status filter never keeps an order whose
   * payment status is unset; total and date bounds are inclusive.
   */
  lemma FilterEdges(us: seq<User>, o: Order, s: string)
    requires s != ""
    ensures Matches(us, NoCriteria.(status := Some(s)), o) <==> ToLower(o.status) == ToLower(s)
    ensures o.paymentStatus.None? ==> !Matches(us, NoCriteria.(paymentStatus := Some(s)), o)
    ensures Matches(us, NoCriteria.(minTotal := Some(o.totalAmount), maxTotal := Some(o.totalAmount),
                                    createdFrom := Some(o.createdAt), createdTo := Some(o.createdAt)), o)
  {
  }

  /** The search reaches through the order to its owner: a term in the owner's e-mail finds the order. */
  lemma SearchFindsOwnerEmail(us: seq<User>, o: Order, k: nat, term: string)
    requires k < |us| && us[k].id == o.userId && UserRepository.IndexOfId(us, o.userId) == Some(k)
    requires Contains(ToLower(us[k].email), ToLower(term))
    ensures MatchesSearch(us, o, term)
  {
  }

  // ---------------------------------------------------------------------------
  // Fixed lists and counts

  function NewestFirst(): Order -> Query.Key
  {
    (o: Order) => Query.Num(o.createdAt)
  }

  /** A page of one user's orders, newest first. */
  function GetByUserIdAsync(os: seq<Order>, userId: Guid, page: int, pageSize: int): (r: seq<Order>)
    ensures exists ordered :: Query.IsOrdering(ordered, Query.FilterBy(os, (o: Order) => o.userId == userId),
                                               NewestFirst(), true) &&
                              r == Query.Page(ordered, page, pageSize)
  {
    Query.Page(Query.SortBy(Query.FilterBy(os, (o: Order) => o.userId == userId), NewestFirst(), true), page, pageSize)
  }

  /** A page of the orders whose status equals `status` ignoring case, newest first. */
  function GetByStatusAsync(os: seq<Order>, status: string, page: int, pageSize: int): (r: seq<Order>)
    ensures exists ordered :: Query.IsOrdering(ordered, Query.FilterBy(os, (o: Order) => EqualsIgnoreCase(o.status, status)),
                                               NewestFirst(), true) &&
                              r == Query.Page(ordered, page, pageSize)
  {
    Query.Page(Query.SortBy(Query.FilterBy(os, (o: Order) => EqualsIgnoreCase(o.status, status)), NewestFirst(), true),
               page, pageSize)
  }

  /** A page of the orders with this payment status (ignoring case), newest first. */
  function GetByPaymentStatusAsync(os: seq<Order>, paymentStatus: string, page: int, pageSize: int): (r: seq<Order>)
    ensures exists ordered :: Query.IsOrdering(ordered, Query.FilterBy(os, (o: Order) => PaymentStatusIs(o, paymentStatus)),
                                               NewestFirst(), true) &&
                              r == Query.Page(ordered, page, pageSize)
  {
    Query.Page(Query.SortBy(Query.FilterBy(os, (o: Order) => PaymentStatusIs(o, paymentStatus)), NewestFirst(), true),
               page, pageSize)
  }

  /** All orders created in `[from, to]`, newest first. */
  function GetOrdersInDateRangeAsync(os: seq<Order>, from: DateTime, to: DateTime): (r: seq<Order>)
    ensures Query.IsOrdering(r, Query.FilterBy(os, (o: Order) => CreatedWithin(o, Some(from), Some(to))), NewestFirst(), true)
  {
    Query.SortBy(Query.FilterBy(os, (o: Order) => CreatedWithin(o, Some(from), Some(to))), NewestFirst(), true)
  }

  function GetOrderCountByStatusAsync(os: seq<Order>, status: string): (r: nat)
    ensures r <= |os|
  {
    |Query.FilterBy(os, (o: Order) => EqualsIgnoreCase(o.status, status))|
  }

  function GetOrderCountByPaymentStatusAsync(os: seq<Order>, paymentStatus: string): (r: nat)
    ensures r <= |os|
  {
    |Query.FilterBy(os, (o: Order) => PaymentStatusIs(o, paymentStatus))|
  }

  function GetCountByUserIdAsync(os: seq<Order>, userId: Guid): (r: nat)
    ensures r <= |os|
  {
    |Query.FilterBy(os, (o: Order) => o.userId == userId)|
  }

  /**
   * The per-status count agrees with the general count under a status filter, except
   * for the empty status: there the general count applies no filter at all.
   */
  lemma CountByStatusAgrees(os: seq<Order>, us: seq<User>, status: string)
    ensures status != "" ==> GetOrderCountByStatusAsync(os, status) == GetCountAsync(os, us, Some(NoCriteria.(status := Some(status))))
    ensures status == "" ==> GetCountAsync(os, us, Some(NoCriteria.(status := Some(status)))) == |os|
  {
    var c := NoCriteria.(status := Some(status));
    if status != "" {
      Query.FilterExt(os, (o: Order) => EqualsIgnoreCase(o.status, status), MatchFn(us, c));
    } else {
      assert forall o :: Matches(us, c, o);
      Query.FilterExt(os, MatchFn(us, c), (o: Order) => true);
      AllPass(os);
    }
  }

  /**
   * The per-payment-status count agrees with the general count under a
   * payment-status filter (for a non-empty status), and it counts exactly the
   * orders the payment-status list returns without a limit.
   */
  lemma CountByPaymentStatusAgrees(os: seq<Order>, us: seq<User>, paymentStatus: string)
    ensures paymentStatus != "" ==>
              GetOrderCountByPaymentStatusAsync(os, paymentStatus) ==
              GetCountAsync(os, us, Some(NoCriteria.(paymentStatus := Some(paymentStatus))))
    ensures |GetByPaymentStatusAsync(os, paymentStatus, 1, -1)| == GetOrderCountByPaymentStatusAsync(os, paymentStatus)
    ensures forall o :: o in GetByPaymentStatusAsync(os, paymentStatus, 1, -1) <==> o in os && PaymentStatusIs(o, paymentStatus)
  {
    var c := NoCriteria.(paymentStatus := Some(paymentStatus));
    if paymentStatus != "" {
      Query.FilterExt(os, (o: Order) => PaymentStatusIs(o, paymentStatus), MatchFn(us, c));
    }
    var matching := Query.FilterBy(os, (o: Order) => PaymentStatusIs(o, paymentStatus));
    var r := GetByPaymentStatusAsync(os, paymentStatus, 1, -1);
    Query.PageOfOrderingFacts(Query.SearchResult(r, |matching|), matching, NewestFirst(), true, 1, -1);
  }

  lemma {:induction false} AllPass(os: seq<Order>)
    ensures Query.FilterBy(os, (o: Order) => true) == os
  {
    if os != [] {
      AllPass(os[1..]);
    }
  }

  /** The per-user count agrees with the general count under a user filter. */
  lemma CountByUserAgrees(os: seq<Order>, us: seq<User>, userId: Guid)
    ensures GetCountByUserIdAsync(os, userId) == GetCountAsync(os, us, Some(NoCriteria.(userId := Some(userId))))
  {
    Query.FilterExt(os, (o: Order) => o.userId == userId, MatchFn(us, NoCriteria.(userId := Some(userId))));
  }

  /** Each user's orders are counted once: the per-user counts of two users sum to their orders. */
  lemma CountByUserSplits(os: seq<Order>, a: Guid, b: Guid)
    requires a != b
    ensures GetCountByUserIdAsync(os, a) + GetCountByUserIdAsync(os, b) ==
              |Query.FilterBy(os, (o: Order) => o.userId == a || o.userId == b)|
  {
    var fa := (o: Order) => o.userId == a;
    var fb := (o: Order) => o.userId == b;
    SplitDisjoint(os, fa, fb, (o: Order) => o.userId == a || o.userId == b);
  }

  lemma {:induction false} SplitDisjoint(os: seq<Order>, f: Order -> bool, g: Order -> bool, h: Order -> bool)
    requires forall o :: !(f(o) && g(o)) && h(o) == (f(o) || g(o))
    ensures |Query.FilterBy(os, f)| + |Query.FilterBy(os, g)| == |Query.FilterBy(os, h)|
  {
    if os != [] {
      SplitDisjoint(os[1..], f, g, h);
    }
  }

  // ---------------------------------------------------------------------------
  // Revenue

  function SumTotals(os: seq<Order>): Money
  {
    if os == [] then 0 else os[0].totalAmount + SumTotals(os[1..])
  }

  lemma {:induction false} SumTotalsConcat(a: seq<Order>, b: seq<Order>)
    ensures SumTotals(a + b) == SumTotals(a) + SumTotals(b)
  {
    if a == [] {
      assert a + b == b;
    } else {
      SumTotalsConcat(a[1..], b);
      assert (a + b)[0] == a[0] && (a + b)[1..] == a[1..] + b;
    }
  }

  function InRangeFn(from: Option<DateTime>, to: Option<DateTime>): Order -> bool
  {
    (o: Order) => CreatedWithin(o, from, to)
  }

  /** `SumAsync(o => o.TotalAmount)` over the orders created within the optional bounds. */
  function GetTotalRevenueAsync(os: seq<Order>, from: Option<DateTime>, to: Option<DateTime>): (r: Money)
    ensures (forall o :: o in os ==> o.totalAmount >= 0) ==> r >= 0
  {
    var inRange := Query.FilterBy(os, InRangeFn(from, to));
    NonNegativeTotals(inRange);
    SumTotals(inRange)
  }

  lemma {:induction false} NonNegativeTotals(os: seq<Order>)
    ensures (forall o :: o in os ==> o.totalAmount >= 0) ==> SumTotals(os) >= 0
  {
    if os != [] {
      NonNegativeTotals(os[1..]);
      assert forall o :: o in os[1..] ==> o in os;
    }
  }

  function GetOrderCountAsync(os: seq<Order>, from: Option<DateTime>, to: Option<DateTime>): (r: nat)
    ensures r <= |os|
  {
    |Query.FilterBy(os, InRangeFn(from, to))|
  }

  /**
   * Revenue adds up over any split of the orders; without bounds it is the sum of
   * every order's total; the order count of a range is the search count with the
   * same created bounds.
   */
  lemma RevenueFacts(a: seq<Order>, b: seq<Order>, us: seq<User>, from: Option<DateTime>, to: Option<DateTime>)
    ensures GetTotalRevenueAsync(a + b, from, to) == GetTotalRevenueAsync(a, from, to) + GetTotalRevenueAsync(b, from, to)
    ensures GetTotalRevenueAsync(a, None, None) == SumTotals(a)
    ensures GetOrderCountAsync(a, from, to) == GetCountAsync(a, us, Some(NoCriteria.(createdFrom := from, createdTo := to)))
  {
    RevenueAdds(a, b, from, to);
    RevenueUnbounded(a);
    CountIsSearchCount(a, us, from, to);
  }

  /** One order contributes its total exactly when it was created within the bounds. */
  lemma RevenueOfOne(o: Order, from: Option<DateTime>, to: Option<DateTime>)
    ensures GetTotalRevenueAsync([o], from, to) == if CreatedWithin(o, from, to) then o.totalAmount else 0
  {
    var f := InRangeFn(from, to);
    assert [o][1..] == [];
    assert Query.FilterBy([o][1..], f) == [];
    if CreatedWithin(o, from, to) {
      assert Query.FilterBy([o], f) == [o];
      assert SumTotals([o]) == o.totalAmount + SumTotals([o][1..]);
    } else {
      assert Query.FilterBy([o], f) == [];
    }
  }

  /** Revenue within the bounds, order by order: each order adds its total when created within them. */
  function RangeRevenue(os: seq<Order>, from: Option<DateTime>, to: Option<DateTime>): Money
  {
    if os == [] then 0
    else (if CreatedWithin(os[0], from, to) then os[0].totalAmount else 0) + RangeRevenue(os[1..], from, to)
  }

  /** The revenue query is the sum of the totals of exactly the orders created within the bounds. */
  lemma {:induction false} RevenueIsRangeRevenue(os: seq<Order>, from: Option<DateTime>, to: Option<DateTime>)
    ensures GetTotalRevenueAsync(os, from, to) == RangeRevenue(os, from, to)
  {
    if os == [] {
      assert Query.FilterBy(os, InRangeFn(from, to)) == [];
    } else {
      assert os == [os[0]] + os[1..];
      RevenueAdds([os[0]], os[1..], from, to);
      RevenueOfOne(os[0], from, to);
      RevenueIsRangeRevenue(os[1..], from, to);
    }
  }

  lemma RevenueAdds(a: seq<Order>, b: seq<Order>, from: Option<DateTime>, to: Option<DateTime>)
    ensures GetTotalRevenueAsync(a + b, from, to) == GetTotalRevenueAsync(a, from, to) + GetTotalRevenueAsync(b, from, to)
  {
    Query.FilterConcat(a, b, InRangeFn(from, to));
    SumTotalsConcat(Query.FilterBy(a, InRangeFn(from, to)), Query.FilterBy(b, InRangeFn(from, to)));
  }

  lemma RevenueUnbounded(a: seq<Order>)
    ensures GetTotalRevenueAsync(a, None, None) == SumTotals(a)
  {
    Query.FilterExt(a, InRangeFn(None, None), (o: Order) => true);
    AllPass(a);
  }

  lemma CountIsSearchCount(a: seq<Order>, us: seq<User>, from: Option<DateTime>, to: Option<DateTime>)
    ensures GetOrderCountAsync(a, from, to) == GetCountAsync(a, us, Some(NoCriteria.(createdFrom := from, createdTo := to)))
  {
    Query.FilterExt(a, InRangeFn(from, to), MatchFn(us, NoCriteria.(createdFrom := from, createdTo := to)));
  }

  // ---------------------------------------------------------------------------
  // Order numbers

  function NumbersWithPrefix(os: seq<Order>, prefix: string): (r: seq<string>)
    ensures forall n :: n in r <==> StartsWith(n, prefix) && exists o :: o in os && o.orderNumber == n
  {
    if os == [] then []
    else (if StartsWith(os[0].orderNumber, prefix) then [os[0].orderNumber] else []) + NumbersWithPrefix(os[1..], prefix)
  }

  /** `OrderByDescending(o => o.OrderNumber).FirstOrDefault()`: the greatest number in ordinal order. */
  function LexMax(ns: seq<string>): (r: Option<string>)
    ensures r.None? <==> ns == []
    ensures r.Some? ==> r.value in ns && forall n :: n in ns ==> Query.StrLe(n, r.value)
  {
    if ns == [] then None
    else match LexMax(ns[1..])
      case None =>
        Query.StrLeTotal(ns[0], ns[0]);
        assert forall n :: n in ns ==> n == ns[0];
        Some(ns[0])
      case Some(m) =>
        assert forall n :: n in ns ==> n == ns[0] || n in ns[1..];
        Query.StrLeTotal(ns[0], m);
        Query.StrLeTotal(ns[0], ns[0]);
        if Query.StrLe(ns[0], m) then Some(m)
        else
          AllBelow(ns[1..], m, ns[0]);
          Some(ns[0])
  }

  lemma AllBelow(ns: seq<string>, m: string, x: string)
    requires forall n :: n in ns ==> Query.StrLe(n, m)
    requires Query.StrLe(m, x)
    ensures forall n :: n in ns ==> Query.StrLe(n, x)
  {
    forall n | n in ns ensures Query.StrLe(n, x) {
      Query.StrLeTrans(n, m, x);
    }
  }

  /**
   * `GenerateOrderNumberAsync`: today's `yyyyMMdd` prefix, then one more than the
   * number that follows the prefix in the greatest order number carrying it (as
   * text); 1 when there is none or its tail does not parse. The increment wraps
   * like C#'s unchecked `int`.
   */
  function GenerateOrderNumberAsync(os: seq<Order>, now: DateTime): (r: string)
    requires IsDateTime(now)
    ensures StartsWith(r, DatePrefix(now))
    ensures |r| >= |DatePrefix(now)| + 4
  {
    var prefix := DatePrefix(now);
    var r := prefix + FormatD4(NextSequence(LexMax(NumbersWithPrefix(os, prefix)), prefix));
    assert r[..|prefix|] == prefix;
    r
  }

  /** The sequence after the greatest number `last`: its parsed tail plus one (wrapping), else 1. */
  function NextSequence(last: Option<string>, prefix: string): (r: int)
    requires last.Some? ==> StartsWith(last.value, prefix)
    ensures IsInt32(r)
    ensures last.None? || TryParseInt32(last.value[|prefix|..]).None? ==> r == 1
    ensures last.Some? && TryParseInt32(last.value[|prefix|..]).Some? ==>
              r == Wrap32(TryParseInt32(last.value[|prefix|..]).value + 1)
  {
    match last
    case None => 1
    case Some(n) =>
      match TryParseInt32(n[|prefix|..])
      case Some(v) => Wrap32(v + 1)
      case None => 1
  }

  lemma FormatOne()
    ensures FormatD4(1) == "0001"
  {
    assert NatToString(1) == "1";
  }

  /** The first order of the day is numbered `yyyyMMdd0001`. */
  lemma FirstOfTheDay(os: seq<Order>, now: DateTime)
    requires IsDateTime(now)
    requires forall o :: o in os ==> !StartsWith(o.orderNumber, DatePrefix(now))
    ensures GenerateOrderNumberAsync(os, now) == DatePrefix(now) + "0001"
  {
    FormatOne();
  }

  /** When the greatest number is the prefix plus `D4(k)`, the next one carries `k + 1`, wrapped to 32 bits. */
  lemma NextAfterLast(os: seq<Order>, now: DateTime, k: int)
    requires IsDateTime(now) && IsInt32(k)
    requires LexMax(NumbersWithPrefix(os, DatePrefix(now))) == Some(DatePrefix(now) + FormatD4(k))
    ensures GenerateOrderNumberAsync(os, now) == DatePrefix(now) + FormatD4(Wrap32(k + 1))
    ensures k == MaxInt32 ==> GenerateOrderNumberAsync(os, now) == DatePrefix(now) + FormatD4(MinInt32)
  {
    var prefix := DatePrefix(now);
    SequenceAfter(prefix, k);
    assert Wrap32(MaxInt32 + 1) == MinInt32;
  }

  /** A greatest number whose tail `int.TryParse` rejects restarts the day's sequence at `0001`. */
  lemma UnparsableTailRestarts(os: seq<Order>, now: DateTime)
    requires IsDateTime(now)
    requires var m := LexMax(NumbersWithPrefix(os, DatePrefix(now)));
             m.Some? && StartsWith(m.value, DatePrefix(now)) && TryParseInt32(m.value[|DatePrefix(now)|..]).None?
    ensures GenerateOrderNumberAsync(os, now) == DatePrefix(now) + "0001"
  {
    FormatOne();
  }

  /** Whatever tail `int.TryParse` accepts (" 7", "12", "+0003"), the next number carries its value plus one. */
  lemma ParsedTailIncrements(os: seq<Order>, now: DateTime, v: int)
    requires IsDateTime(now)
    requires var m := LexMax(NumbersWithPrefix(os, DatePrefix(now)));
             m.Some? && StartsWith(m.value, DatePrefix(now)) && TryParseInt32(m.value[|DatePrefix(now)|..]) == Some(v)
    ensures GenerateOrderNumberAsync(os, now) == DatePrefix(now) + FormatD4(Wrap32(v + 1))
  {
  }

  lemma SequenceAfter(prefix: string, k: int)
    requires IsInt32(k)
    ensures StartsWith(prefix + FormatD4(k), prefix)
    ensures NextSequence(Some(prefix + FormatD4(k)), prefix) == Wrap32(k + 1)
  {
    var f := FormatD4(k);
    PrefixAndTail(prefix, f);
    ParseFormatRoundTrip(k);
    NextSequenceOf(prefix + f, prefix, k);
  }

  lemma PrefixAndTail(prefix: string, tail: string)
    ensures StartsWith(prefix + tail, prefix) && (prefix + tail)[|prefix|..] == tail
  {
    var n := prefix + tail;
    assert n[..|prefix|] == prefix;
  }

  lemma NextSequenceOf(n: string, prefix: string, v: int)
    requires StartsWith(n, prefix) && TryParseInt32(n[|prefix|..]) == Some(v)
    ensures NextSequence(Some(n), prefix) == Wrap32(v + 1)
  {
  }

  lemma {:induction false} StrLeCommonPrefix(p: string, a: string, b: string)
    ensures Query.StrLe(p + a, p + b) == Query.StrLe(a, b)
  {
    if p == [] {
      assert p + a == a && p + b == b;
    } else {
      StrLeCommonPrefix(p[1..], a, b);
      assert (p + a)[0] == p[0] && (p + a)[1..] == p[1..] + a;
      assert (p + b)[0] == p[0] && (p + b)[1..] == p[1..] + b;
    }
  }

  lemma Format9999And10000()
    ensures FormatD4(9999) == "9999" && FormatD4(10000) == "10000"
  {
    assert NatToString(9999) == "9999" by {
      assert NatToString(9) == "9";
      assert NatToString(99) == "99";
      assert NatToString(999) == "999";
    }
    assert NatToString(10000) == "10000" by {
      assert NatToString(1) == "1";
      assert NatToString(10) == "10";
      assert NatToString(100) == "100";
      assert NatToString(1000) == "1000";
    }
  }

  lemma PairNumbers(a: Order, b: Order, prefix: string)
    requires StartsWith(a.orderNumber, prefix) && StartsWith(b.orderNumber, prefix)
    ensures NumbersWithPrefix([a, b], prefix) == [a.orderNumber, b.orderNumber]
  {
    assert [a, b][1..] == [b];
    assert NumbersWithPrefix([b], prefix) == [b.orderNumber] + NumbersWithPrefix([], prefix);
  }

  lemma PairMax(x: string, y: string)
    requires !Query.StrLe(x, y)
    ensures LexMax([x, y]) == Some(x)
  {
    assert [x, y][1..] == [y];
    assert LexMax([y]) == Some(y);
  }

  /** With the date prefix in front, "10000" still sorts before "9999". */
  lemma TextOrderOfTails(prefix: string)
    ensures !Query.StrLe(prefix + "9999", prefix + "10000")
  {
    StrLeCommonPrefix(prefix, "9999", "10000");
    assert !Query.StrLe("9999", "10000");
  }

  /**
   * Once a day has orders `...9999` and `...10000`, the text maximum is `...9999`,
   * so the generator hands out `...10000` again: a number already taken.
   */
  lemma NumberCollidesAfter9999(a: Order, b: Order, now: DateTime)
    requires IsDateTime(now)
    requires a.orderNumber == DatePrefix(now) + "9999" && b.orderNumber == DatePrefix(now) + "10000"
    ensures GenerateOrderNumberAsync([a, b], now) == b.orderNumber
  {
    var prefix := DatePrefix(now);
    Format9999And10000();
    SequenceAfter(prefix, 9999);
    SequenceAfter(prefix, 10000);
    PairNumbers(a, b, prefix);
    TextOrderOfTails(prefix);
    PairMax(a.orderNumber, b.orderNumber);
    NextAfterLast([a, b], now, 9999);
  }

  /** The sequence number a stored order number carries after `prefix`, when it parses. */
  function SequenceOf(n: string, prefix: string): (r: Option<int>)
    ensures r.Some? ==> IsInt32(r.value)
  {
    if StartsWith(n, prefix) then TryParseInt32(n[|prefix|..]) else None
  }

  /** The greatest of the present values. */
  function MaxOf(xs: seq<Option<int>>): (r: Option<int>)
    ensures r.None? <==> forall i :: 0 <= i < |xs| ==> xs[i].None?
    ensures r.Some? ==> forall i :: 0 <= i < |xs| && xs[i].Some? ==> xs[i].value <= r.value
    ensures r.Some? ==> exists i :: 0 <= i < |xs| && xs[i] == r
  {
    if xs == [] then None
    else
      var rest := MaxOf(xs[1..]);
      assert forall i :: 1 <= i < |xs| ==> xs[i] == xs[1..][i - 1];
      if xs[0].None? then rest
      else if rest.None? || rest.value < xs[0].value then xs[0]
      else rest
  }

  /** The sequence number of every order, in store order. */
  function Sequences(os: seq<Order>, prefix: string): (r: seq<Option<int>>)
    ensures |r| == |os| && forall i :: 0 <= i < |os| ==> r[i] == SequenceOf(os[i].orderNumber, prefix)
  {
    seq(|os|, i requires 0 <= i < |os| => SequenceOf(os[i].orderNumber, prefix))
  }

  /** The greatest sequence number among the orders carrying `prefix`. */
  function MaxSequence(os: seq<Order>, prefix: string): (r: Option<int>)
  {
    MaxOf(Sequences(os, prefix))
  }

  /** A number whose sequence exceeds every stored one is not taken. */
  lemma AboveMaxIsFree(os: seq<Order>, prefix: string, n: string)
    requires SequenceOf(n, prefix).Some?
    requires MaxSequence(os, prefix).None? || MaxSequence(os, prefix).value < SequenceOf(n, prefix).value
    ensures forall i :: 0 <= i < |os| ==> os[i].orderNumber != n
  {
    var xs := Sequences(os, prefix);
    forall i | 0 <= i < |os| ensures os[i].orderNumber != n {
      assert xs[i] == SequenceOf(os[i].orderNumber, prefix);
    }
  }

  lemma MaxSequenceInt32(os: seq<Order>, prefix: string)
    ensures MaxSequence(os, prefix).Some? ==> IsInt32(MaxSequence(os, prefix).value)
  {
    var xs := Sequences(os, prefix);
    if MaxOf(xs).Some? {
      var i :| 0 <= i < |xs| && xs[i] == MaxOf(xs);
      assert xs[i] == SequenceOf(os[i].orderNumber, prefix);
    }
  }

  /**
   * The generator with the numeric maximum instead of the text maximum: one more
   * than the greatest sequence number carried by any order of the day, and no
   * number once that sequence reaches `int.MaxValue`.
   */
  function GenerateOrderNumberNumeric(os: seq<Order>, now: DateTime): (r: Option<string>)
    requires IsDateTime(now)
    ensures r.Some? ==> StartsWith(r.value, DatePrefix(now))
    ensures r.Some? ==> forall i :: 0 <= i < |os| ==> os[i].orderNumber != r.value
    ensures r.None? ==> MaxSequence(os, DatePrefix(now)) == Some(MaxInt32)
  {
    var prefix := DatePrefix(now);
    var m := MaxSequence(os, prefix);
    MaxSequenceInt32(os, prefix);
    if m.Some? && m.value == MaxInt32 then None
    else
      var next := if m.None? then 1 else m.value + 1;
      var r := prefix + FormatD4(next);
      SequenceOfFormatted(prefix, next);
      assert r[..|prefix|] == prefix;
      AboveMaxIsFree(os, prefix, r);
      Some(r)
  }

  lemma PairSequences(a: Order, b: Order, prefix: string)
    requires SequenceOf(a.orderNumber, prefix) == Some(9999) && SequenceOf(b.orderNumber, prefix) == Some(10000)
    ensures MaxSequence([a, b], prefix) == Some(10000)
  {
    var xs := Sequences([a, b], prefix);
    assert xs == [Some(9999), Some(10000)];
    var ys: seq<Option<int>> := [Some(10000)];
    assert xs[1..] == ys;
    assert MaxOf(ys) == Some(10000) by {
      assert ys[1..] == [];
    }
  }

  /** The numeric generator does not repeat `...10000` on the day the text generator does. */
  lemma NumericAvoidsCollision(a: Order, b: Order, now: DateTime)
    requires IsDateTime(now)
    requires a.orderNumber == DatePrefix(now) + "9999" && b.orderNumber == DatePrefix(now) + "10000"
    ensures GenerateOrderNumberNumeric([a, b], now).Some?
    ensures GenerateOrderNumberNumeric([a, b], now).value != GenerateOrderNumberAsync([a, b], now)
  {
    NumberCollidesAfter9999(a, b, now);
    var prefix := DatePrefix(now);
    Format9999And10000();
    SequenceOfFormatted(prefix, 9999);
    SequenceOfFormatted(prefix, 10000);
    PairSequences(a, b, prefix);
    assert [a, b][1] == b;
  }

  lemma SequenceOfFormatted(prefix: string, k: int)
    requires IsInt32(k)
    ensures SequenceOf(prefix + FormatD4(k), prefix) == Some(k)
  {
    var f := FormatD4(k);
    PrefixAndTail(prefix, f);
    ParseFormatRoundTrip(k);
  }

  /** On a day with no orders, both generators give `yyyyMMdd0001`. */
  lemma GeneratorsAgreeOnFirst(os: seq<Order>, now: DateTime)
    requires IsDateTime(now)
    requires forall o :: o in os ==> !StartsWith(o.orderNumber, DatePrefix(now))
    ensures GenerateOrderNumberNumeric(os, now) == Some(GenerateOrderNumberAsync(os, now))
  {
    var prefix := DatePrefix(now);
    NoPrefixNoSequence(os, prefix);
    FirstOfTheDay(os, now);
    FormatOne();
    assert GenerateOrderNumberNumeric(os, now) == Some(prefix + FormatD4(1));
  }

  /** Orders without the prefix contribute no sequence number. */
  lemma NoPrefixNoSequence(os: seq<Order>, prefix: string)
    requires forall o :: o in os ==> !StartsWith(o.orderNumber, prefix)
    ensures MaxSequence(os, prefix).None?
  {
    var xs := Sequences(os, prefix);
    forall i | 0 <= i < |os| ensures xs[i].None? {
      assert os[i] in os;
    }
  }

  // ---------------------------------------------------------------------------
  // Field updates

  /** The store after applying `f` to the order with id `orderId`; an unknown id changes nothing. */
  function WithOrder(os: seq<Order>, orderId: Guid, f: Order -> Order): (r: seq<Order>)
    ensures |r| == |os|
    ensures forall i :: 0 <= i < |os| ==> r[i] == if IndexOfId(os, orderId) == Some(i) then f(os[i]) else os[i]
  {
    match IndexOfId(os, orderId)
    case None => os
    case Some(k) => os[k := f(os[k])]
  }

  /** `UpdateStatusAsync`: any status string, no transition check, and the update time. */
  function SetStatus(status: string, now: DateTime): Order -> Order
  {
    (o: Order) => o.(status := status, updatedAt := now)
  }

  function SetPaymentStatus(paymentStatus: string, now: DateTime): Order -> Order
  {
    (o: Order) => o.(paymentStatus := Some(paymentStatus), updatedAt := now)
  }

  /** `UpdateShippingInfoAsync`: tracking number and URL only; status and update time stay. */
  function SetShippingInfo(trackingNumber: string, trackingUrl: Option<string>): Order -> Order
  {
    (o: Order) => o.(trackingNumber := Some(trackingNumber), trackingUrl := trackingUrl)
  }

  /** `UpdatePaymentInfoAsync`: payment status and transaction id only; the update time stays. */
  function SetPaymentInfo(paymentStatus: string, transactionId: Option<string>): Order -> Order
  {
    (o: Order) => o.(paymentStatus := Some(paymentStatus), transactionId := transactionId)
  }

  /** `f` leaves the key and reference columns alone. */
  ghost predicate KeepsKeys(f: Order -> Order)
  {
    forall o :: f(o).id == o.id && f(o).orderNumber == o.orderNumber && f(o).userId == o.userId &&
                f(o).orderItems == o.orderItems
  }

  lemma UpdatersKeepKeys(status: string, s: Option<string>, now: DateTime)
    ensures KeepsKeys(SetStatus(status, now)) && KeepsKeys(SetPaymentStatus(status, now))
    ensures KeepsKeys(SetShippingInfo(status, s)) && KeepsKeys(SetPaymentInfo(status, s))
  {
  }

  lemma WithOrderValid(os: seq<Order>, us: seq<User>, ps: seq<Product>, orderId: Guid, f: Order -> Order)
    requires ValidOrders(os, us, ps) && KeepsKeys(f)
    ensures ValidOrders(WithOrder(os, orderId, f), us, ps)
  {
    var r := WithOrder(os, orderId, f);
    forall i | 0 <= i < |r| ensures r[i].userId in UserIds(us) && ItemsResolve(r[i], ps) {
      assert ItemsResolve(os[i], ps);
    }
    WithOrderItemKeys(os, orderId, f);
  }

  lemma WithOrderItemKeys(os: seq<Order>, orderId: Guid, f: Order -> Order)
    requires KeepsKeys(f)
    ensures Flatten(WithOrder(os, orderId, f), ItemKeys) == Flatten(os, ItemKeys)
  {
    if IndexOfId(os, orderId).Some? {
      var k := IndexOfId(os, orderId).value;
      assert f(os[k]).orderItems == os[k].orderItems;
      FlattenReplace(os, k, f(os[k]), ItemKeys);
    }
  }

  /**
   * The status update does not consult the state machine: a cancelled order set
   * back to "pending" is cancellable again; the shipping update makes the order
   * shipped without touching its status or update time.
   */
  lemma UpdateEffects(os: seq<Order>, k: nat, orderId: Guid, now: DateTime, trackingNumber: string, url: Option<string>)
    requires k < |os| && IndexOfId(os, orderId) == Some(k)
    ensures os[k].IsCancelled() ==> WithOrder(os, orderId, SetStatus("pending", now))[k].CanBeCancelled()
    ensures var s := WithOrder(os, orderId, SetShippingInfo(trackingNumber, url))[k];
            (trackingNumber != "" ==> s.IsShipped()) && s.status == os[k].status && s.updatedAt == os[k].updatedAt
    ensures WithOrder(os, orderId, SetStatus("shipped", now))[k].IsShipped() == os[k].IsShipped()
  {
  }

  /** Applies `f` in place to the order with id `orderId`, if there is one. */
  method UpdateOrder(db: Database, orderId: Guid, f: Order -> Order)
    requires db.Valid() && KeepsKeys(f)
    modifies db`orders
    ensures db.orders == WithOrder(old(db.orders), orderId, f)
    ensures db.Valid()
  {
    WithOrderValid(db.orders, db.users, db.products, orderId, f);
    var found := IndexOfId(db.orders, orderId);
    if found.Some? {
      var k := found.value;
      db.orders := db.orders[k := f(db.orders[k])];
    }
  }

  method UpdateStatusAsync(db: Database, orderId: Guid, status: string, now: DateTime)
    requires db.Valid()
    modifies db`orders
    ensures db.orders == WithOrder(old(db.orders), orderId, SetStatus(status, now))
    ensures db.Valid()
  {
    UpdatersKeepKeys(status, None, now);
    UpdateOrder(db, orderId, SetStatus(status, now));
  }

  method UpdatePaymentStatusAsync(db: Database, orderId: Guid, paymentStatus: string, now: DateTime)
    requires db.Valid()
    modifies db`orders
    ensures db.orders == WithOrder(old(db.orders), orderId, SetPaymentStatus(paymentStatus, now))
    ensures db.Valid()
  {
    UpdatersKeepKeys(paymentStatus, None, now);
    UpdateOrder(db, orderId, SetPaymentStatus(paymentStatus, now));
  }

  method UpdateShippingInfoAsync(db: Database, orderId: Guid, trackingNumber: string, trackingUrl: Option<string>)
    requires db.Valid()
    modifies db`orders
    ensures db.orders == WithOrder(old(db.orders), orderId, SetShippingInfo(trackingNumber, trackingUrl))
    ensures db.Valid()
  {
    UpdatersKeepKeys(trackingNumber, trackingUrl, 0);
    UpdateOrder(db, orderId, SetShippingInfo(trackingNumber, trackingUrl));
  }

  method UpdatePaymentInfoAsync(db: Database, orderId: Guid, paymentStatus: string, transactionId: Option<string>)
    requires db.Valid()
    modifies db`orders
    ensures db.orders == WithOrder(old(db.orders), orderId, SetPaymentInfo(paymentStatus, transactionId))
    ensures db.Valid()
  {
    UpdatersKeepKeys(paymentStatus, transactionId, 0);
    UpdateOrder(db, orderId, SetPaymentInfo(paymentStatus, transactionId));
  }

  // ---------------------------------------------------------------------------
  // Add and delete

  /** The foreign-key test the database makes for each item: its product and variant exist. */
  function ItemsResolveCheck(o: Order, ps: seq<Product>): (r: bool)
    ensures r <==> ItemsResolve(StoredOrder(o), ps)
  {
    var s := StoredOrder(o);
    assert forall it :: it in s.orderItems ==> it.orderId == o.id;
    forall it :: it in s.orderItems ==>
      (exists p :: p in ps && p.id == it.productId) &&
      (exists p, v :: p in ps && v in p.variants && v.id == it.productVariantId)
  }

  /**
   * `AddAsync`: inserts the order with its items and returns the tracked entity,
   * whose items now point at it. A taken id or order number, an item key that is
   * already stored or repeats within the order, an unknown user, or an item whose
   * product or variant is missing fails the save and nothing is stored.
   */
  method AddAsync(db: Database, order: Order) returns (r: Result<Order, DbError>)
    requires db.Valid()
    modifies db`orders
    ensures r.Err? <==> (exists i :: 0 <= i < |old(db.orders)| && old(db.orders)[i].id == order.id) ||
                        ExistsByOrderNumberAsync(old(db.orders), order.orderNumber) ||
                        !ItemKeysDistinct(old(db.orders) + [order]) ||
                        order.userId !in UserIds(db.users) || !ItemsResolve(StoredOrder(order), db.products)
    ensures r.Ok? ==> r.value == StoredOrder(order) && db.orders == old(db.orders) + [StoredOrder(order)]
    ensures r.Err? ==> db.orders == old(db.orders)
    ensures db.Valid()
  {
    if exists i :: 0 <= i < |db.orders| && db.orders[i].id == order.id {
      return Err(UniqueViolation("PK_Orders"));
    }
    if ExistsByOrderNumberAsync(db.orders, order.orderNumber) {
      return Err(UniqueViolation("IX_Orders_OrderNumber"));
    }
    if !ItemKeysDistinct(db.orders + [order]) {
      return Err(UniqueViolation("PK_OrderItems"));
    }
    if UserRepository.GetByIdAsync(db.users, order.userId).None? {
      assert order.userId !in UserIds(db.users);
      return Err(ForeignKeyViolation("FK_Orders_Users_UserId"));
    }
    if !ItemsResolveCheck(order, db.products) {
      return Err(ForeignKeyViolation("FK_OrderItems_Products_ProductId"));
    }
    AddedItemKeys(db.orders, order);
    AddKeepsOrdersValid(db.orders, db.users, db.products, StoredOrder(order));
    db.orders := db.orders + [StoredOrder(order)];
    r := Ok(StoredOrder(order));
  }

  /** An order with a fresh key and number whose references resolve can be appended. */
  lemma AddKeepsOrdersValid(os: seq<Order>, us: seq<User>, ps: seq<Product>, o: Order)
    requires ValidOrders(os, us, ps)
    requires forall i :: 0 <= i < |os| ==> os[i].id != o.id && os[i].orderNumber != o.orderNumber
    requires o.userId in UserIds(us) && ItemsResolve(o, ps) && ItemKeysDistinct(os + [o])
    ensures ValidOrders(os + [o], us, ps)
  {
    var r := os + [o];
    forall i, j | 0 <= i < j < |r| ensures r[i].id != r[j].id && r[i].orderNumber != r[j].orderNumber {
      assert r[i] == os[i];
      if j < |os| {
        assert r[j] == os[j];
      }
    }
    forall i | 0 <= i < |r| ensures r[i].userId in UserIds(us) && ItemsResolve(r[i], ps) {
      if i < |os| {
        assert r[i] == os[i];
      }
    }
  }

  /** Storing a generated number that is already taken fails on the unique index. */
  lemma CollisionFailsSave(os: seq<Order>, now: DateTime)
    requires IsDateTime(now)
    requires exists o :: o in os && o.orderNumber == GenerateOrderNumberAsync(os, now)
    ensures ExistsByOrderNumberAsync(os, GenerateOrderNumberAsync(os, now))
  {
    var o :| o in os && o.orderNumber == GenerateOrderNumberAsync(os, now);
    var i :| 0 <= i < |os| && os[i] == o;
  }

  /** `DeleteAsync`: removes the order and, by cascade, its items; an unknown id does nothing. */
  method DeleteAsync(db: Database, id: Guid)
    requires db.Valid()
    modifies db`orders
    ensures IndexOfId(old(db.orders), id).None? ==> db.orders == old(db.orders)
    ensures IndexOfId(old(db.orders), id).Some? ==> db.orders == Query.RemoveAt(old(db.orders), IndexOfId(old(db.orders), id).value)
    ensures forall o :: o in db.orders ==> o.id != id
    ensures db.Valid()
  {
    var found := IndexOfId(db.orders, id);
    if found.None? {
      return;
    }
    var k := found.value;
    RemoveKeepsOrdersValid(db.orders, db.users, db.products, k);
    db.orders := Query.RemoveAt(db.orders, k);
  }

  /** Removing one order keeps the rest valid, and no remaining order has the removed key. */
  lemma RemoveKeepsOrdersValid(os: seq<Order>, us: seq<User>, ps: seq<Product>, k: nat)
    requires ValidOrders(os, us, ps) && k < |os|
    ensures ValidOrders(Query.RemoveAt(os, k), us, ps)
    ensures forall o :: o in Query.RemoveAt(os, k) ==> o.id != os[k].id
  {
    var rest := Query.RemoveAt(os, k);
    RemoveKeepsDistinct(os, k, ItemKeys);
    forall i, j | 0 <= i < j < |rest| ensures rest[i].id != rest[j].id && rest[i].orderNumber != rest[j].orderNumber {
      var i0, j0 := if i < k then i else i + 1, if j < k then j else j + 1;
      assert rest[i] == os[i0] && rest[j] == os[j0] && i0 < j0;
    }
    forall i | 0 <= i < |rest| ensures rest[i].userId in UserIds(us) && ItemsResolve(rest[i], ps) {
      var i0 := if i < k then i else i + 1;
      assert rest[i] == os[i0];
    }
    forall o | o in rest ensures o.id != os[k].id {
      var i :| 0 <= i < |rest| && rest[i] == o;
      var i0 := if i < k then i else i + 1;
      assert rest[i] == os[i0] && i0 != k;
    }
  }
}
