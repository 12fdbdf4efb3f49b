/**
 * The product list page: the page and limit read from the address, the
 * parameters rebuilt when a filter or the page changes, and the pager (its
 * window of page numbers and its enabled buttons).
 */
module ProductsPage {
  import opened Wrappers
  import opened ClientText
  import opened UrlParams
  import opened Text
  import opened Primitives

  // ---------------------------------------------------------------------------
  // Page and limit from the address

  /** JavaScript `a || b` on a possibly missing string: a missing or empty `a` gives `b`. */
  function OrDefault(v: Option<string>, d: string): string
  {
    if v.None? || v.value == "" then d else v.value
  }

  /** `parseInt(searchParams.get('page') || '1')`. */
  function PageOf(es: seq<Entry>): Number
  {
    ParseNumber(OrDefault(FirstValue(es, "page"), "1"))
  }

  /** `parseInt(searchParams.get('limit') || '20')`. */
  function LimitOf(es: seq<Entry>): Number
  {
    ParseNumber(OrDefault(FirstValue(es, "limit"), "20"))
  }

  /** Without a `page` or `limit` parameter the page is 1 and the limit 20. */
  lemma Defaults(es: seq<Entry>)
    ensures FirstValue(es, "page") in {None, Some("")} ==> PageOf(es) == Int(1)
    ensures FirstValue(es, "limit") in {None, Some("")} ==> LimitOf(es) == Int(20)
  {
    DefaultTexts();
    if FirstValue(es, "page") in {None, Some("")} {
      assert OrDefault(FirstValue(es, "page"), "1") == "1";
    }
    if FirstValue(es, "limit") in {None, Some("")} {
      assert OrDefault(FirstValue(es, "limit"), "20") == "20";
    }
  }

  lemma DefaultTexts()
    ensures ParseNumber("1") == Int(1) && ParseNumber("20") == Int(20)
  {
    ParseOne();
    ParseTwenty();
  }

  lemma ParseOne()
    ensures ParseNumber("1") == Int(1)
  {
    ParseDecimal("1");
    assert RadixValue("1", false) == 1 by { assert "1"[..0] == ""; }
  }

  lemma ParseTwenty()
    ensures ParseNumber("20") == Int(20)
  {
    ParseDecimal("20");
    assert RadixValue("20", false) == 20 by { assert "20"[..1] == "2" && "2"[..0] == ""; }
  }




  // ---------------------------------------------------------------------------
  // Filter change

  /** A filter's value: a string, a flag, a number, or `undefined`. */
  datatype FilterValue = Str(s: string) | Bool(b: bool) | Num(n: Number) | Undefined

  /** The values written to the address: everything but `''`, `false` and `undefined`. */
  predicate Kept(v: FilterValue)
  {
    v != Str("") && v != Bool(false) && v != Undefined
  }

  /** `String(v)`. */
  function ValueText(v: FilterValue): string
  {
    match v
    case Str(s) => s
    case Bool(b) => if b then "true" else "false"
    case Num(n) => n.ToText()
    case Undefined => "undefined"
  }

  /** The filter object's own properties, in insertion order. */
  type Filters = seq<(string, FilterValue)>

  predicate DistinctKeys(fs: Filters)
  {
    forall i, j :: 0 <= i < j < |fs| ==> fs[i].0 != fs[j].0
  }

  predicate HasKey(fs: Filters, key: string)
  {
    exists i :: 0 <= i < |fs| && fs[i].0 == key
  }

  /** `{ ...filters, [key]: value }`: an existing property is replaced in place, a new one appended. */
  function WithFilter(fs: Filters, key: string, value: FilterValue): (r: Filters)
    ensures HasKey(fs, key) ==> |r| == |fs|
    ensures !HasKey(fs, key) ==> r == fs + [(key, value)]
    ensures forall i :: 0 <= i < |fs| ==> r[i] == (if fs[i].0 == key then (key, value) else fs[i])
    ensures HasKey(r, key)
    ensures DistinctKeys(fs) ==> DistinctKeys(r)
  {
    if HasKey(fs, key) then seq(|fs|, i requires 0 <= i < |fs| => if fs[i].0 == key then (key, value) else fs[i])
    else
      var r := fs + [(key, value)];
      assert r[|fs|].0 == key;
      r
  }

  /** The parameters after the `forEach` over the first entries: one `set` per kept value. */
  function SetKept(fs: Filters): seq<Entry>
  {
    if fs == [] then []
    else
      var prev := SetKept(fs[..|fs| - 1]);
      var last := fs[|fs| - 1];
      if Kept(last.1) then SetEntry(prev, last.0, ValueText(last.1)) else prev
  }

  /** The kept properties as parameters, in order. */
  function KeptEntries(fs: Filters): (r: seq<Entry>)
    ensures forall k :: 0 <= k < |r| ==> HasKey(fs, r[k].0)
  {
    if fs == [] then []
    else
      var prev := KeptEntries(fs[..|fs| - 1]);
      var last := fs[|fs| - 1];
      assert forall k :: 0 <= k < |prev| ==> HasKey(fs, prev[k].0) by {
        forall k | 0 <= k < |prev| ensures HasKey(fs, prev[k].0) {
          var m :| 0 <= m < |fs| - 1 && fs[..|fs| - 1][m].0 == prev[k].0;
          assert fs[m].0 == prev[k].0;
        }
      }
      if Kept(last.1) then prev + [(last.0, ValueText(last.1))] else prev
  }

  /** `handleFilterChange(key, value)`: the new filters, and the parameters it writes. */
  method HandleFilterChange(filters: Filters, key: string, value: FilterValue) returns (newFilters: Filters, params: seq<Entry>)
    ensures newFilters == WithFilter(filters, key, value)
    ensures params == SetEntry(SetKept(newFilters), "page", "1")
  {
    newFilters := WithFilter(filters, key, value);
    var p := new SearchParams();
    var i := 0;
    while i < |newFilters|
      invariant 0 <= i <= |newFilters|
      invariant p.entries == SetKept(newFilters[..i])
    {
      assert newFilters[..i + 1][..i] == newFilters[..i];
      var (k, v) := newFilters[i];
      if Kept(v) {
        p.Set(k, ValueText(v));
      }
      i := i + 1;
    }
    assert newFilters[..i] == newFilters;
    p.Set("page", "1");
    params := p.entries;
  }

  /** With distinct property names the `set` calls only ever append. */
  lemma {:induction false} SetKeptAppends(fs: Filters)
    requires DistinctKeys(fs)
    ensures SetKept(fs) == KeptEntries(fs)
    decreases |fs|
  {
    if fs != [] {
      var init := fs[..|fs| - 1];
      var last := fs[|fs| - 1];
      SetKeptAppends(init);
      if Kept(last.1) {
        var prev := KeptEntries(init);
        forall i | 0 <= i < |prev| ensures prev[i].0 != last.0 {
          var j :| 0 <= j < |init| && init[j].0 == prev[i].0;
          assert init[j] == fs[j];
        }
        SetNewName(prev, last.0, ValueText(last.1));
      }
    }
  }

  /**
   * A filter change writes exactly the kept properties, in order, followed by
   * `page=1`, when no property is itself called "page".
   */
  lemma FilterChangeQuery(fs: Filters)
    requires DistinctKeys(fs) && forall i :: 0 <= i < |fs| ==> fs[i].0 != "page"
    ensures SetEntry(SetKept(fs), "page", "1") == KeptEntries(fs) + [("page", "1")]
    ensures FirstValue(SetEntry(SetKept(fs), "page", "1"), "page") == Some("1")
  {
    SetKeptAppends(fs);
    var k := KeptEntries(fs);
    forall i | 0 <= i < |k| ensures k[i].0 != "page" {
      var m :| 0 <= m < |fs| && fs[m].0 == k[i].0;
    }
    SetNewName(k, "page", "1");
    SetThenGet(k, "page", "1");
  }

  /** The last property's name is not among the parameters written for the others. */
  lemma LastKeyFresh(fs: Filters)
    requires DistinctKeys(fs) && fs != []
    ensures FirstValue(KeptEntries(fs[..|fs| - 1]), fs[|fs| - 1].0) == None
  {
    var init := fs[..|fs| - 1];
    var prev := KeptEntries(init);
    forall i | 0 <= i < |prev| ensures prev[i].0 != fs[|fs| - 1].0 {
      var m :| 0 <= m < |init| && init[m].0 == prev[i].0;
      assert init[m] == fs[m];
    }
  }

  /** The parameters of all properties: those of the others, then the last one's if kept. */
  lemma KeptEntriesLast(fs: Filters)
    requires fs != []
    ensures var last := fs[|fs| - 1];
            KeptEntries(fs) == KeptEntries(fs[..|fs| - 1]) + (if Kept(last.1) then [(last.0, ValueText(last.1))] else [])
  {
  }

  /** A property's parameter after the change: its text if kept, absent if not. */
  lemma {:induction false} KeptEntriesValue(fs: Filters, j: nat)
    requires DistinctKeys(fs) && j < |fs|
    ensures FirstValue(KeptEntries(fs), fs[j].0) == if Kept(fs[j].1) then Some(ValueText(fs[j].1)) else None
    decreases |fs|
  {
    var init := fs[..|fs| - 1];
    var last := fs[|fs| - 1];
    var prev := KeptEntries(init);
    var extra: seq<Entry> := if Kept(last.1) then [(last.0, ValueText(last.1))] else [];
    KeptEntriesLast(fs);
    FirstValueConcat(prev, extra, fs[j].0);
    if j == |fs| - 1 {
      LastKeyFresh(fs);
    } else {
      assert DistinctKeys(init);
      KeptEntriesValue(init, j);
      assert init[j] == fs[j];
      assert fs[j].0 != last.0;
    }
  }

  // ---------------------------------------------------------------------------
  // Page change

  /** `handlePageChange(newPage)`: a copy of the current parameters with `page` set. */
  method HandlePageChange(current: seq<Entry>, newPage: Number) returns (params: seq<Entry>)
    ensures params == SetEntry(current, "page", newPage.ToText())
  {
    var p := new SearchParams.FromEntries(current);
    p.Set("page", newPage.ToText());
    params := p.entries;
  }

  /** Changing the page alters only `page`, and the page read back is the new one. */
  lemma PageChangeOnlyPage(current: seq<Entry>, newPage: int)
    ensures var params := SetEntry(current, "page", NumberToString(newPage));
            && Others(params, "page") == Others(current, "page")
            && (forall other :: other != "page" ==> FirstValue(params, other) == FirstValue(current, other))
            && PageOf(params) == Int(newPage)
  {
    var params := SetEntry(current, "page", NumberToString(newPage));
    SetKeepsOthers(current, "page", NumberToString(newPage));
    forall other | other != "page" ensures FirstValue(params, other) == FirstValue(current, other) {
      SetKeepsOtherGets(current, "page", NumberToString(newPage), other);
    }
    SetThenGet(current, "page", NumberToString(newPage));
    ParseIntRoundTrip(newPage);
  }

  // ---------------------------------------------------------------------------
  // Pager

  function Min(a: int, b: int): int
  {
    if a <= b then a else b
  }

  /**
   * The page numbers shown: `min(5, totalPages)` buttons from
   * `max(1, min(totalPages - 4, page - 2))` on; a `NaN` page makes every number `NaN`.
   */
  function PageWindow(page: Number, totalPages: int): (r: seq<Number>)
    ensures |r| == if totalPages < 0 then 0 else Min(5, totalPages)
  {
    var count := if totalPages < 0 then 0 else Min(5, totalPages);
    if page.NaN? then seq(count, i => NaN)
    else
      var start := Max(1, Min(totalPages - 4, page.value - 2));
      seq(count, i => Int(start + i))
  }

  /** On a page between 1 and `totalPages` the window holds consecutive pages in range, the current one among them. */
  lemma WindowInRange(page: int, totalPages: int)
    requires 1 <= page <= totalPages
    ensures var w := PageWindow(Int(page), totalPages);
            && |w| == Min(5, totalPages)
            && (forall i :: 0 <= i < |w| ==> w[i].Int? && w[i].value == w[0].value + i && 1 <= w[i].value <= totalPages)
            && (exists i :: 0 <= i < |w| && w[i] == Int(page))
  {
    var w := PageWindow(Int(page), totalPages);
    var start := Max(1, Min(totalPages - 4, page - 2));
    assert w[page - start] == Int(page);
  }

  predicate PagerShown(totalPages: int) { totalPages > 1 }

  /** `page <= 1`; false for `NaN`. */
  predicate PrevDisabled(page: Number) { page.Int? && page.value <= 1 }

  /** `page >= totalPages`; false for `NaN`. */
  predicate NextDisabled(page: Number, totalPages: int) { page.Int? && page.value >= totalPages }

  /** `pageNum === page`; `NaN` equals nothing. */
  predicate IsCurrent(pageNum: Number, page: Number) { pageNum.Int? && page.Int? && pageNum.value == page.value }

  /**
   * On a page in range the enabled buttons lead to pages in range, and the window
   * marks exactly one button as current.
   */
  lemma PagerStaysInRange(page: int, totalPages: int)
    requires PagerShown(totalPages) && 1 <= page <= totalPages
    ensures !PrevDisabled(Int(page)) ==> 1 <= page - 1 <= totalPages
    ensures !NextDisabled(Int(page), totalPages) ==> 1 <= page + 1 <= totalPages
    ensures PrevDisabled(Int(page)) <==> page == 1
    ensures NextDisabled(Int(page), totalPages) <==> page == totalPages
    ensures var w := PageWindow(Int(page), totalPages);
            exists i :: 0 <= i < |w| && IsCurrent(w[i], Int(page)) &&
                        forall j :: 0 <= j < |w| && IsCurrent(w[j], Int(page)) ==> j == i
  {
    WindowInRange(page, totalPages);
    var w := PageWindow(Int(page), totalPages);
    var i :| 0 <= i < |w| && w[i] == Int(page);
    assert IsCurrent(w[i], Int(page));
  }

  /** A page that did not parse enables both buttons and marks no button as current. */
  lemma UnparsedPage(totalPages: int)
    ensures !PrevDisabled(NaN) && !NextDisabled(NaN, totalPages)
    ensures forall i :: 0 <= i < |PageWindow(NaN, totalPages)| ==> !IsCurrent(PageWindow(NaN, totalPages)[i], NaN)
  {
  }
}
