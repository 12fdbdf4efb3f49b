/**
 * The browser's `URLSearchParams` as the client code uses it: an ordered list
 * of name-value pairs with `append`, `set` and `get`.
 */
module UrlParams {
  import opened Wrappers
  import Query

  type Entry = (string, string)

  /** `get(name)`: the value of the first pair with that name, if any. */
  function FirstValue(es: seq<Entry>, name: string): (r: Option<string>)
    ensures r.None? <==> forall i :: 0 <= i < |es| ==> es[i].0 != name
    ensures r.Some? ==> exists i :: 0 <= i < |es| && es[i] == (name, r.value) &&
                          forall j :: 0 <= j < i ==> es[j].0 != name
  {
    if es == [] then None
    else if es[0].0 == name then Some(es[0].1)
    else
      var r := FirstValue(es[1..], name);
      assert r.Some? ==> exists i :: 1 <= i < |es| && es[i] == (name, r.value) && forall j :: 1 <= j < i ==> es[j].0 != name;
      r
  }

  /** The pairs not named `name`, in order. */
  function Others(es: seq<Entry>, name: string): seq<Entry>
  {
    Query.FilterBy(es, (e: Entry) => e.0 != name)
  }

  /**
   * `set(name, value)`: the first pair with that name takes the value and the
   * other pairs with that name go; without one, the pair is appended.
   */
  function SetEntry(es: seq<Entry>, name: string, value: string): (r: seq<Entry>)
  {
    if es == [] then [(name, value)]
    else if es[0].0 == name then [(name, value)] + Others(es[1..], name)
    else [es[0]] + SetEntry(es[1..], name, value)
  }

  /** After `set`, `get(name)` is the new value. */
  lemma {:induction false} SetThenGet(es: seq<Entry>, name: string, value: string)
    ensures FirstValue(SetEntry(es, name, value), name) == Some(value)
  {
    if es != [] && es[0].0 != name {
      SetThenGet(es[1..], name, value);
    }
  }

  /** `set` leaves the pairs with other names untouched and in their order. */
  lemma {:induction false} SetKeepsOthers(es: seq<Entry>, name: string, value: string)
    ensures Others(SetEntry(es, name, value), name) == Others(es, name)
  {
    if es == [] {
    } else if es[0].0 == name {
      OthersDropName(es[1..], name);
      Query.FilterConcat([(name, value)], Others(es[1..], name), (e: Entry) => e.0 != name);
    } else {
      SetKeepsOthers(es[1..], name, value);
      Query.FilterConcat([es[0]], SetEntry(es[1..], name, value), (e: Entry) => e.0 != name);
    }
  }

  /** Hence every other `get` answers as before. */
  lemma SetKeepsOtherGets(es: seq<Entry>, name: string, value: string, other: string)
    requires other != name
    ensures FirstValue(SetEntry(es, name, value), other) == FirstValue(es, other)
  {
    SetKeepsOthers(es, name, value);
    OthersFirstValue(es, name);
    OthersFirstValue(SetEntry(es, name, value), name);
  }

  /** After `set`, exactly one pair carries the name. */
  lemma {:induction false} SetLeavesOne(es: seq<Entry>, name: string, value: string)
    ensures |Query.FilterBy(SetEntry(es, name, value), (e: Entry) => e.0 == name)| == 1
  {
    if es == [] {
    } else if es[0].0 == name {
      var o := Others(es[1..], name);
      assert forall i :: 0 <= i < |o| ==> o[i] in o;
      NoneNamed(o, name);
      Query.FilterConcat([(name, value)], o, (e: Entry) => e.0 == name);
    } else {
      SetLeavesOne(es[1..], name, value);
      Query.FilterConcat([es[0]], SetEntry(es[1..], name, value), (e: Entry) => e.0 == name);
    }
  }

  lemma {:induction false} OthersDropName(es: seq<Entry>, name: string)
    ensures Others(Others(es, name), name) == Others(es, name)
  {
    if es != [] {
      OthersDropName(es[1..], name);
      Query.FilterConcat(if es[0].0 != name then [es[0]] else [], Others(es[1..], name), (e: Entry) => e.0 != name);
    }
  }

  lemma {:induction false} OthersFirstValue(es: seq<Entry>, name: string)
    ensures forall other :: other != name ==> FirstValue(Others(es, name), other) == FirstValue(es, other)
  {
    if es != [] {
      OthersFirstValue(es[1..], name);
      if es[0].0 != name {
        assert Others(es, name) == [es[0]] + Others(es[1..], name);
      } else {
        assert Others(es, name) == Others(es[1..], name);
      }
    }
  }

  lemma NoneNamed(es: seq<Entry>, name: string)
    requires forall i :: 0 <= i < |es| ==> es[i].0 != name
    ensures Query.FilterBy(es, (e: Entry) => e.0 == name) == []
  {
  }

  /** `set` on a name not yet present appends the pair. */
  lemma {:induction false} SetNewName(es: seq<Entry>, name: string, value: string)
    requires forall i :: 0 <= i < |es| ==> es[i].0 != name
    ensures SetEntry(es, name, value) == es + [(name, value)]
  {
    if es != [] {
      SetNewName(es[1..], name, value);
      assert es == [es[0]] + es[1..];
    }
  }

  /** `get` on a concatenation: the first part answers if it can, the second otherwise. */
  lemma {:induction false} FirstValueConcat(a: seq<Entry>, b: seq<Entry>, name: string)
    ensures FirstValue(a + b, name) == if FirstValue(a, name).Some? then FirstValue(a, name) else FirstValue(b, name)
  {
    if a == [] {
      assert a + b == b;
    } else {
      FirstValueConcat(a[1..], b, name);
      assert (a + b)[0] == a[0] && (a + b)[1..] == a[1..] + b;
    }
  }

  /** A `URLSearchParams` object. */
  class SearchParams {
    var entries: seq<Entry>

    /** `new URLSearchParams()`. */
    constructor ()
      ensures entries == []
    {
      entries := [];
    }

    /** `new URLSearchParams(other)`: a copy of another parameter list. */
    constructor FromEntries(es: seq<Entry>)
      ensures entries == es
    {
      entries := es;
    }

    function Get(name: string): Option<string>
      reads this
    {
      FirstValue(entries, name)
    }

    method Append(name: string, value: string)
      modifies this
      ensures entries == old(entries) + [(name, value)]
    {
      entries := entries + [(name, value)];
    }

    method Set(name: string, value: string)
      modifies this
      ensures entries == SetEntry(old(entries), name, value)
    {
      entries := SetEntry(entries, name, value);
    }
  }
}
