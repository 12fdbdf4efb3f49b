/**
 * The parts of a LINQ-to-SQL query pipeline shared by the three repositories:
 * `Where` (FilterBy), `OrderBy`/`OrderByDescending` (sort keys and sortedness),
 * `Skip`/`Take` (Page), and the page count the services report.
 *
 * SQL does not order ties, so results are specified as "non-decreasing in the key
 * and a permutation of the filtered rows"; SortBy below is one such ordering.
 */
module Query {
  import opened Wrappers

  // ---------------------------------------------------------------------------
  // Filtering

  /** `Where(f)`: the elements satisfying `f`, in their original order. */
  function FilterBy<T(!new)>(s: seq<T>, f: T -> bool): (r: seq<T>)
    ensures |r| <= |s|
    ensures forall x :: x in r <==> x in s && f(x)
  {
    if s == [] then [] else (if f(s[0]) then [s[0]] else []) + FilterBy(s[1..], f)
  }

  /** Filtering splits a sequence: what `f` keeps plus what it drops is everything. */
  lemma {:induction false} FilterPartition<T(!new)>(s: seq<T>, f: T -> bool, g: T -> bool)
    requires forall x :: g(x) == !f(x)
    ensures |FilterBy(s, f)| + |FilterBy(s, g)| == |s|
  {
    if s != [] {
      FilterPartition(s[1..], f, g);
    }
  }

  /** Two chained `Where` calls keep exactly what their conjunction keeps. */
  lemma {:induction false} FilterChain<T(!new)>(s: seq<T>, f: T -> bool, g: T -> bool, h: T -> bool)
    requires forall x :: h(x) == (f(x) && g(x))
    ensures FilterBy(FilterBy(s, f), g) == FilterBy(s, h)
  {
    if s != [] {
      FilterChain(s[1..], f, g, h);
      assert FilterBy(s, f) == (if f(s[0]) then [s[0]] else []) + FilterBy(s[1..], f);
      if f(s[0]) {
        assert FilterBy(s, f)[0] == s[0];
        assert FilterBy(s, f)[1..] == FilterBy(s[1..], f);
      } else {
        assert FilterBy(s, f) == FilterBy(s[1..], f);
      }
    }
  }

  /** Filters that agree on every element keep the same elements. */
  lemma {:induction false} FilterExt<T(!new)>(s: seq<T>, f: T -> bool, g: T -> bool)
    requires forall x :: x in s ==> f(x) == g(x)
    ensures FilterBy(s, f) == FilterBy(s, g)
  {
    if s != [] {
      FilterExt(s[1..], f, g);
    }
  }

  /** A filter every element passes keeps the whole sequence. */
  lemma {:induction false} FilterKeepsAll<T(!new)>(s: seq<T>, f: T -> bool)
    ensures (forall x :: x in s ==> f(x)) ==> FilterBy(s, f) == s
  {
    if s != [] && forall x :: x in s ==> f(x) {
      assert forall x :: x in s[1..] ==> x in s;
      FilterKeepsAll(s[1..], f);
      assert [s[0]] + s[1..] == s;
    }
  }

  /** Filtering distributes over concatenation. */
  lemma {:induction false} FilterConcat<T(!new)>(a: seq<T>, b: seq<T>, f: T -> bool)
    ensures FilterBy(a + b, f) == FilterBy(a, f) + FilterBy(b, f)
  {
    if a == [] {
      assert a + b == b;
    } else {
      var head := if f(a[0]) then [a[0]] else [];
      assert (a + b)[0] == a[0] && (a + b)[1..] == a[1..] + b;
      calc {
        FilterBy(a + b, f);
        head + FilterBy(a[1..] + b, f);
        { FilterConcat(a[1..], b, f); }
        head + (FilterBy(a[1..], f) + FilterBy(b, f));
        (head + FilterBy(a[1..], f)) + FilterBy(b, f);
        FilterBy(a, f) + FilterBy(b, f);
      }
    }
  }

  lemma {:induction false} FilterMultiset<T(!new)>(s: seq<T>, f: T -> bool)
    ensures multiset(FilterBy(s, f)) <= multiset(s)
  {
    if s != [] {
      FilterMultiset(s[1..], f);
      assert s == [s[0]] + s[1..];
    }
  }

  /** `FirstOrDefault(f)`: the index of the first element satisfying `f`, if any. */
  function FirstMatch<T>(s: seq<T>, f: T -> bool): (r: Option<nat>)
    ensures r.None? <==> forall i :: 0 <= i < |s| ==> !f(s[i])
    ensures r.Some? ==> r.value < |s| && f(s[r.value]) && forall j :: 0 <= j < r.value ==> !f(s[j])
  {
    if s == [] then None
    else if f(s[0]) then Some(0)
    else match FirstMatch(s[1..], f)
      case None => None
      case Some(k) => Some(k + 1)
  }

  /** Tests that agree on every element find the same first match. */
  lemma {:induction false} FirstMatchExt<T>(s: seq<T>, f: T -> bool, g: T -> bool)
    requires forall i :: 0 <= i < |s| ==> f(s[i]) == g(s[i])
    ensures FirstMatch(s, f) == FirstMatch(s, g)
  {
    if s != [] && !f(s[0]) {
      FirstMatchExt(s[1..], f, g);
    }
  }

  // ---------------------------------------------------------------------------
  // Sort keys and their order

  /**
   * A column value used as a sort key. `Null` is SQL NULL (an empty MIN, an unset
   * date or payment status); SQLite orders NULL before every other value.
   */
  datatype Key = Null | Num(n: int) | Text(s: string)

  /** Ordinal string order: code unit by code unit, a proper prefix first (BINARY collation). */
  predicate StrLe(a: string, b: string)
    decreases |a|
  {
    a == [] || (b != [] && (a[0] < b[0] || (a[0] == b[0] && StrLe(a[1..], b[1..]))))
  }

  lemma {:induction false} StrLeTotal(a: string, b: string)
    ensures StrLe(a, b) || StrLe(b, a)
    decreases |a|
  {
    if a != [] && b != [] && a[0] == b[0] {
      StrLeTotal(a[1..], b[1..]);
    }
  }

  lemma {:induction false} StrLeTrans(a: string, b: string, c: string)
    requires StrLe(a, b) && StrLe(b, c)
    ensures StrLe(a, c)
    decreases |a|
  {
    if a != [] && b != [] && c != [] && a[0] == b[0] && b[0] == c[0] {
      StrLeTrans(a[1..], b[1..], c[1..]);
    }
  }

  lemma {:induction false} StrLeAntisym(a: string, b: string)
    requires StrLe(a, b) && StrLe(b, a)
    ensures a == b
    decreases |a|
  {
    if a != [] && b != [] {
      StrLeAntisym(a[1..], b[1..]);
    }
  }

  predicate KeyLe(a: Key, b: Key)
  {
    match (a, b)
    case (Null, _) => true
    case (_, Null) => false
    case (Num(x), Num(y)) => x <= y
    case (Num(_), Text(_)) => true
    case (Text(_), Num(_)) => false
    case (Text(x), Text(y)) => StrLe(x, y)
  }

  /** `a` may come before `b`, ascending or descending. */
  predicate InOrder(a: Key, b: Key, descending: bool)
  {
    if descending then KeyLe(b, a) else KeyLe(a, b)
  }

  lemma InOrderTotal(a: Key, b: Key, descending: bool)
    ensures InOrder(a, b, descending) || InOrder(b, a, descending)
  {
    if a.Text? && b.Text? {
      StrLeTotal(a.s, b.s);
    }
  }

  lemma InOrderTrans(a: Key, b: Key, c: Key, descending: bool)
    requires InOrder(a, b, descending) && InOrder(b, c, descending)
    ensures InOrder(a, c, descending)
  {
    if a.Text? && b.Text? && c.Text? {
      if descending { StrLeTrans(c.s, b.s, a.s); } else { StrLeTrans(a.s, b.s, c.s); }
    }
  }

  /** Every earlier element may come before every later one. */
  ghost predicate SortedBy<T>(s: seq<T>, key: T -> Key, descending: bool)
  {
    forall i, j :: 0 <= i < j < |s| ==> InOrder(key(s[i]), key(s[j]), descending)
  }

  /** What `OrderBy(key)` (or `OrderByDescending`) may return for `s`: any sorted permutation. */
  ghost predicate IsOrdering<T>(ordered: seq<T>, s: seq<T>, key: T -> Key, descending: bool)
  {
    multiset(ordered) == multiset(s) && SortedBy(ordered, key, descending)
  }

  function Insert<T>(x: T, s: seq<T>, key: T -> Key, descending: bool): (r: seq<T>)
    requires SortedBy(s, key, descending)
    ensures multiset(r) == multiset(s) + multiset{x}
    ensures SortedBy(r, key, descending)
  {
    if s == [] then [x]
    else if InOrder(key(x), key(s[0]), descending) then
      InsertFrontSorted(x, s, key, descending);
      [x] + s
    else
      InOrderTotal(key(x), key(s[0]), descending);
      var rest := Insert(x, s[1..], key, descending);
      assert s == [s[0]] + s[1..];
      HeadBeforeAll(s[0], rest, s[1..], x, key, descending);
      [s[0]] + rest
  }

  lemma InsertFrontSorted<T>(x: T, s: seq<T>, key: T -> Key, descending: bool)
    requires s != [] && SortedBy(s, key, descending)
    requires InOrder(key(x), key(s[0]), descending)
    ensures SortedBy([x] + s, key, descending)
  {
    forall j | 1 <= j < |s| + 1 ensures InOrder(key(x), key(([x] + s)[j]), descending) {
      if j > 1 {
        InOrderTrans(key(x), key(s[0]), key(s[j - 1]), descending);
      }
    }
  }

  lemma HeadBeforeAll<T>(h: T, rest: seq<T>, tail: seq<T>, x: T, key: T -> Key, descending: bool)
    requires SortedBy([h] + tail, key, descending) && SortedBy(rest, key, descending)
    requires InOrder(key(h), key(x), descending)
    requires multiset(rest) == multiset(tail) + multiset{x}
    ensures SortedBy([h] + rest, key, descending)
  {
    forall j | 0 <= j < |rest| ensures InOrder(key(h), key(rest[j]), descending) {
      assert rest[j] in multiset(rest);
      if rest[j] != x {
        assert rest[j] in multiset(tail);
        var k :| 0 <= k < |tail| && tail[k] == rest[j];
        assert ([h] + tail)[0] == h && ([h] + tail)[k + 1] == rest[j];
      }
    }
    forall i, j | 0 <= i < j < |rest| + 1
      ensures InOrder(key(([h] + rest)[i]), key(([h] + rest)[j]), descending)
    {
      if i > 0 {
        assert ([h] + rest)[i] == rest[i - 1] && ([h] + rest)[j] == rest[j - 1];
      } else {
        assert ([h] + rest)[j] == rest[j - 1];
      }
    }
  }

  /** One admissible result of `OrderBy`: insertion sort, stable on ties. */
  function SortBy<T>(s: seq<T>, key: T -> Key, descending: bool): (r: seq<T>)
    ensures IsOrdering(r, s, key, descending)
  {
    if s == [] then []
    else
      assert s == [s[0]] + s[1..];
      Insert(s[0], SortBy(s[1..], key, descending), key, descending)
  }

  /** A contiguous run of a sorted sequence is sorted. */
  lemma SortedSlice<T>(s: seq<T>, lo: nat, hi: nat, key: T -> Key, descending: bool)
    requires lo <= hi <= |s| && SortedBy(s, key, descending)
    ensures SortedBy(s[lo..hi], key, descending)
  {
    forall i, j | 0 <= i < j < hi - lo
      ensures InOrder(key(s[lo..hi][i]), key(s[lo..hi][j]), descending)
    {
      assert s[lo..hi][i] == s[lo + i] && s[lo..hi][j] == s[lo + j];
    }
  }

  /** The `(items, totalCount)` pair the repositories' searches return. */
  datatype SearchResult<T> = SearchResult(items: seq<T>, totalCount: nat)

  /**
   * What a search may return: `totalCount` rows match, and `items` is the requested
   * page of some admissible ordering of them.
   */
  ghost predicate IsPageOfOrdering<T(!new)>(r: SearchResult<T>, matching: seq<T>, key: T -> Key, descending: bool,
                                      page: int, pageSize: int)
  {
    r.totalCount == |matching| &&
    exists ordered :: IsOrdering(ordered, matching, key, descending) && r.items == Page(ordered, page, pageSize)
  }

  /**
   * Every item of such a page is a matching row, the page is sorted, and it
   * holds as many rows as the limit lets through; a page holding every
   * matching row holds each of them.
   */
  lemma PageOfOrderingFacts<T(!new)>(r: SearchResult<T>, matching: seq<T>, key: T -> Key, descending: bool,
                               page: int, pageSize: int)
    requires IsPageOfOrdering(r, matching, key, descending, page, pageSize)
    ensures |r.items| == PageLength(|matching|, page, pageSize)
    ensures r.totalCount == |matching| && |r.items| <= |matching|
    ensures multiset(r.items) <= multiset(matching)
    ensures |r.items| == |matching| ==> multiset(r.items) == multiset(matching)
    ensures forall x :: x in r.items ==> x in matching
    ensures |r.items| == |matching| ==> forall x :: x in matching ==> x in r.items
    ensures SortedBy(r.items, key, descending)
  {
    var ordered :| IsOrdering(ordered, matching, key, descending) && r.items == Page(ordered, page, pageSize);
    var lo := PageStart(|ordered|, page, pageSize);
    var hi := lo + |r.items|;
    assert r.items == ordered[lo..hi];
    assert |ordered| == |multiset(ordered)| == |multiset(matching)| == |matching|;
    SortedSlice(ordered, lo, hi, key, descending);
    SliceMultiset(ordered, lo, hi);
    forall x | x in r.items ensures x in matching {
      assert x in multiset(r.items);
    }
    if |r.items| == |matching| {
      assert lo == 0 && hi == |ordered|;
      assert r.items == ordered;
      forall x | x in matching ensures x in r.items {
        assert x in multiset(matching);
      }
    }
  }

  lemma SliceMultiset<T>(s: seq<T>, lo: nat, hi: nat)
    requires lo <= hi <= |s|
    ensures multiset(s[lo..hi]) <= multiset(s)
  {
    assert s == s[..lo] + s[lo..hi] + s[hi..];
  }

  // ---------------------------------------------------------------------------
  // Paging

  function Clamp(x: int, lo: int, hi: int): (r: int)
    requires lo <= hi
    ensures lo <= r <= hi
  {
    if x < lo then lo else if x > hi then hi else x
  }

  /**
   * Index of the first row of page `page` after `Skip((page - 1) * pageSize)`,
   * which SQLite runs as `OFFSET`: a negative offset skips nothing.
   */
  function PageStart(count: nat, page: int, pageSize: int): (r: nat)
    ensures r <= count
  {
    Clamp((page - 1) * pageSize, 0, count)
  }

  /**
   * How many of `count` rows `Take(pageSize)` keeps after the offset. SQLite
   * runs it as `LIMIT`, and a negative limit has no upper bound: every row
   * from the offset on is kept.
   */
  function PageLength(count: nat, page: int, pageSize: int): (n: nat)
    ensures PageStart(count, page, pageSize) + n <= count
    ensures pageSize >= 0 ==> n <= pageSize && (n < pageSize ==> PageStart(count, page, pageSize) + n == count)
    ensures pageSize < 0 ==> PageStart(count, page, pageSize) + n == count
  {
    var lo := PageStart(count, page, pageSize);
    if pageSize < 0 then count - lo else Clamp(pageSize, 0, count - lo)
  }

  /** `Skip((page - 1) * pageSize).Take(pageSize)` as SQLite's `LIMIT pageSize OFFSET (page - 1) * pageSize`. */
  function Page<T>(s: seq<T>, page: int, pageSize: int): (r: seq<T>)
    ensures |r| == PageLength(|s|, page, pageSize)
    ensures var lo := PageStart(|s|, page, pageSize); lo + |r| <= |s| && r == s[lo..lo + |r|]
  {
    var lo := PageStart(|s|, page, pageSize);
    s[lo..lo + PageLength(|s|, page, pageSize)]
  }

  /**
   * A negative size is no limit: the page is every row from the offset on, and
   * from page 1 on, where the offset is not positive, the whole input.
   */
  lemma UnlimitedPage<T>(s: seq<T>, page: int, pageSize: int)
    requires pageSize < 0
    ensures Page(s, page, pageSize) == s[PageStart(|s|, page, pageSize)..]
    ensures page >= 1 ==> Page(s, page, pageSize) == s
  {
    if page >= 1 {
      MulMono(0, page - 1, -pageSize);
      assert PageStart(|s|, page, pageSize) == 0;
    }
  }

  /**
   * With a positive page size, row `i` of the sorted result is row `i % pageSize`
   * of page `i / pageSize + 1`: paging loses and repeats nothing.
   */
  lemma PageCovers<T>(s: seq<T>, pageSize: int, i: nat)
    requires pageSize > 0 && i < |s|
    ensures var p := Page(s, i / pageSize + 1, pageSize);
            i % pageSize < |p| && p[i % pageSize] == s[i]
  {
    var q, m := i / pageSize, i % pageSize;
    assert (q + 1 - 1) * pageSize == q * pageSize;
    assert q * pageSize + m == i;
    assert q * pageSize <= i;
  }

  /**
   * `(int)Math.Ceiling((double)totalCount / pageSize)`. For counts and sizes in
   * 32-bit range the double quotient rounds to the exact ceiling. A zero page
   * size divides by zero in floating point (infinity or NaN) and yields `None`.
   */
  function TotalPages(totalCount: nat, pageSize: int): (r: Option<int>)
    ensures r.None? <==> pageSize == 0
    ensures pageSize > 0 ==> r.Some? && (r.value - 1) * pageSize < totalCount <= r.value * pageSize
  {
    if pageSize == 0 then None
    else if pageSize > 0 then Some((totalCount + pageSize - 1) / pageSize)
    else Some(-(totalCount / -pageSize))
  }

  lemma MulMono(a: int, b: int, c: int)
    requires a <= b && c >= 0
    ensures a * c <= b * c
  {
    assert b * c - a * c == (b - a) * c;
  }

  /** Pages 1..TotalPages are exactly the non-empty pages; a page below 1 is page 1. */
  lemma NonEmptyPages<T>(s: seq<T>, pageSize: int, page: int)
    requires pageSize > 0
    ensures page >= 1 ==> (Page(s, page, pageSize) != [] <==> page <= TotalPages(|s|, pageSize).value)
    ensures page < 1 ==> Page(s, page, pageSize) == Page(s, 1, pageSize)
  {
    var t := TotalPages(|s|, pageSize).value;
    if page < 1 {
      MulMono(page - 1, 0, pageSize);
    } else if page <= t {
      MulMono(page - 1, t - 1, pageSize);
      MulMono(0, page - 1, pageSize);
    } else {
      MulMono(t, page - 1, pageSize);
    }
  }

  /** `s` without its element at index `k` (a row deletion). */
  function RemoveAt<T>(s: seq<T>, k: nat): (r: seq<T>)
    requires k < |s|
    ensures |r| == |s| - 1
    ensures forall i :: 0 <= i < |r| ==> r[i] == s[if i < k then i else i + 1]
  {
    s[..k] + s[k + 1..]
  }
}
