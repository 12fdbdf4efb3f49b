/**
 * The add-product form: the handle slug derived from the title on submit, the
 * vendor filled in from the signed-in user, and the tag list editor.
 */
module AddProductPage {
  import opened Wrappers
  import opened Text
  import opened ClientText
  import Query
  import opened ProductService

  // ---------------------------------------------------------------------------
  // Handle slug

  /** The characters `[a-z0-9]` keeps. */
  predicate IsSlugChar(c: char)
  {
    'a' <= c <= 'z' || '0' <= c <= '9'
  }

  /** Characters a handle may hold: slug characters and '-'. */
  predicate SlugAlphabet(s: string)
  {
    forall i :: 0 <= i < |s| ==> IsSlugChar(s[i]) || s[i] == '-'
  }

  predicate NoDoubleDash(s: string)
  {
    forall i :: 0 <= i < |s| - 1 ==> !(s[i] == '-' && s[i + 1] == '-')
  }

  /** What the slug generator promises: slug characters and single dashes, none at either end. */
  predicate SlugShaped(s: string)
  {
    SlugAlphabet(s) && NoDoubleDash(s) && (s != [] ==> s[0] != '-' && s[|s| - 1] != '-')
  }

  /** Drops the leading run of characters outside `[a-z0-9]`. */
  function SkipRun(s: string): (r: string)
    ensures |r| <= |s| && r == s[|s| - |r|..]
    ensures r == [] || IsSlugChar(r[0])
    ensures forall i :: 0 <= i < |s| - |r| ==> !IsSlugChar(s[i])
    ensures s != [] && !IsSlugChar(s[0]) ==> |r| < |s|
  {
    if s != [] && !IsSlugChar(s[0]) then SkipRun(s[1..]) else s
  }

  /** `replace(/[^a-z0-9]+/g, '-')`: every maximal run outside `[a-z0-9]` becomes one '-'. */
  function Hyphenate(s: string): (r: string)
    ensures r == [] <==> s == []
    ensures r != [] ==> (r[0] == '-' <==> !IsSlugChar(s[0]))
    ensures SlugAlphabet(r) && NoDoubleDash(r)
    decreases |s|
  {
    if s == [] then []
    else if IsSlugChar(s[0]) then [s[0]] + Hyphenate(s[1..])
    else "-" + Hyphenate(SkipRun(s))
  }

  /** `replace(/(^-|-$)/g, '')`: one leading and one trailing '-' removed. */
  function StripDashes(h: string): string
  {
    var a := if |h| > 0 && h[0] == '-' then h[1..] else h;
    if |a| > 0 && a[|a| - 1] == '-' then a[..|a| - 1] else a
  }

  /** A slice of a dash-separated text keeps its alphabet and its single dashes. */
  lemma SliceKeepsShape(h: string, lo: nat, hi: nat)
    requires lo <= hi <= |h| && SlugAlphabet(h) && NoDoubleDash(h)
    ensures SlugAlphabet(h[lo..hi]) && NoDoubleDash(h[lo..hi])
  {
    var r := h[lo..hi];
    assert forall i :: 0 <= i < |r| ==> r[i] == h[lo + i];
  }

  /** Cutting one dash from each end leaves none at either end. */
  lemma StripDashesShape(h: string)
    requires SlugAlphabet(h) && NoDoubleDash(h)
    ensures SlugShaped(StripDashes(h))
  {
    var off := if |h| > 0 && h[0] == '-' then 1 else 0;
    var a := h[off..];
    SliceKeepsShape(h, off, |h|);
    var k := if |a| > 0 && a[|a| - 1] == '-' then |a| - 1 else |a|;
    SliceKeepsShape(a, 0, k);
    var r := a[..k];
    assert StripDashes(h) == r;
    if r != [] {
      assert r[0] == h[off];
      if off == 1 { assert h[1] != '-'; }
      if k == |a| - 1 { assert a[k - 1] != '-'; }
    }
  }

  /** The handle generated from a product title. */
  function Slug(title: string): (r: string)
    ensures SlugShaped(r)
  {
    var h := Hyphenate(ToLower(title));
    StripDashesShape(h);
    StripDashes(h)
  }

  /** A handle is left alone by `[a-z0-9]`-run replacement when it has no doubled dash. */
  lemma {:induction false} HyphenateFixed(x: string)
    requires SlugAlphabet(x) && NoDoubleDash(x)
    ensures Hyphenate(x) == x
    decreases |x|
  {
    if x != [] {
      HyphenateFixed(x[1..]);
      if !IsSlugChar(x[0]) {
        assert SkipRun(x) == x[1..] by {
          if |x| > 1 { assert SkipRun(x[1..]) == x[1..]; }
        }
      }
    }
  }

  /** Handles are already lower case. */
  lemma LowerOfSlug(x: string)
    requires SlugAlphabet(x)
    ensures ToLower(x) == x
  {
  }

  /** Slugging a generated handle gives it back unchanged. */
  lemma SlugIdempotent(title: string)
    ensures Slug(Slug(title)) == Slug(title)
  {
    var x := Slug(title);
    LowerOfSlug(x);
    HyphenateFixed(x);
  }

  /** A title without ASCII letters or digits gives the empty handle. */
  lemma SeparatorsOnly(title: string)
    requires forall i :: 0 <= i < |title| ==> !IsSlugChar(LowerChar(title[i]))
    ensures Slug(title) == ""
  {
    var l := ToLower(title);
    if l != [] {
      assert |SkipRun(l)| == 0;
      assert Hyphenate(l) == "-";
    }
  }

  // ---------------------------------------------------------------------------
  // Vendor and submission

  /** The part of the client's user the form reads. */
  datatype ClientUser = ClientUser(firstName: string, lastName: string, company: Option<string>)

  /**
   * `user?.company || user?.firstName + ' ' + user?.lastName || ''`: the company
   * when it is non-empty, otherwise the name joined by a space; with no user the
   * concatenation reads "undefined undefined".
   */
  function VendorFor(user: Option<ClientUser>): (r: string)
    ensures user.Some? && user.value.company.Some? && user.value.company.value != "" ==> r == user.value.company.value
    ensures user.None? ==> r == "undefined undefined"
    ensures r != ""
  {
    if user.Some? && user.value.company.Some? && user.value.company.value != "" then user.value.company.value
    else if user.Some? then user.value.firstName + " " + user.value.lastName
    else "undefined undefined"
  }

  /** The request sent on submit: the form with its handle, vendor and child lists replaced. */
  function SubmitPayload(form: CreateProductRequest, user: Option<ClientUser>): CreateProductRequest
  {
    form.(handle := Slug(form.title), vendor := VendorFor(user), variants := [], images := [], options := [],
          published := true)
  }

  /**
   * Whatever handle the form held, the request carries the slug of the title, a
   * non-empty vendor, no variants, images or options, and is published; the
   * typed fields pass through.
   */
  lemma SubmitPayloadShape(form: CreateProductRequest, user: Option<ClientUser>, otherHandle: string)
    ensures var p := SubmitPayload(form, user);
            && SlugShaped(p.handle) && p.handle == Slug(form.title)
            && p == SubmitPayload(form.(handle := otherHandle), user)
            && p.vendor != ""
            && p.variants == [] && p.images == [] && p.options == [] && p.published
            && p.title == form.title && p.description == form.description && p.tags == form.tags
            && p.status == form.status && p.productType == form.productType
  {
  }

  // ---------------------------------------------------------------------------
  // Tags

  /** A tag as the editor stores it: non-empty and trimmed. */
  predicate Tidy(t: string)
  {
    t != "" && Trim(t) == t
  }

  predicate Distinct(tags: seq<string>)
  {
    forall i, j :: 0 <= i < j < |tags| ==> tags[i] != tags[j]
  }

  /** The tag list the editor maintains: no blank or untrimmed tag, no repeats. */
  predicate GoodTags(tags: seq<string>)
  {
    (forall t :: t in tags ==> Tidy(t)) && Distinct(tags)
  }

  datatype TagEditor = TagEditor(tags: seq<string>, newTag: string)

  /** `addTag`: the trimmed input is appended, and the input cleared, when it is non-empty and new. */
  function AddTag(e: TagEditor): (r: TagEditor)
    ensures var t := Trim(e.newTag);
            && (t != "" && t !in e.tags ==> r == TagEditor(e.tags + [t], ""))
            && (t == "" || t in e.tags ==> r == e)
  {
    var t := Trim(e.newTag);
    if t != "" && t !in e.tags then TagEditor(e.tags + [t], "") else e
  }

  function NotTag(tag: string): string -> bool
  {
    (x: string) => x != tag
  }

  /** `removeTag`: every occurrence of the tag goes, the other tags keep their order. */
  function RemoveTag(tags: seq<string>, tag: string): (r: seq<string>)
    ensures tag !in r
    ensures forall x :: x != tag ==> (x in r <==> x in tags)
  {
    Query.FilterBy(tags, NotTag(tag))
  }

  /** Removing distributes over concatenation: the relative order of what stays is kept. */
  lemma RemoveTagConcat(a: seq<string>, b: seq<string>, tag: string)
    ensures RemoveTag(a + b, tag) == RemoveTag(a, tag) + RemoveTag(b, tag)
  {
    Query.FilterConcat(a, b, NotTag(tag));
  }

  lemma {:induction false} RemoveAbsent(tags: seq<string>, tag: string)
    requires tag !in tags
    ensures RemoveTag(tags, tag) == tags
  {
    if tags != [] {
      RemoveAbsent(tags[1..], tag);
    }
  }

  /** `addTag` keeps the list free of blanks and repeats. */
  lemma AddTagKeepsGood(e: TagEditor)
    requires GoodTags(e.tags)
    ensures GoodTags(AddTag(e).tags)
  {
    var t := Trim(e.newTag);
    if t != "" && t !in e.tags {
      TrimFacts(e.newTag);
      var r := e.tags + [t];
      forall i, j | 0 <= i < j < |r| ensures r[i] != r[j] {
        if j == |e.tags| { assert r[i] == e.tags[i]; }
      }
    }
  }

  lemma {:induction false} RemoveKeepsDistinct(tags: seq<string>, tag: string)
    requires Distinct(tags)
    ensures Distinct(RemoveTag(tags, tag))
  {
    if tags != [] {
      RemoveKeepsDistinct(tags[1..], tag);
      var rest := RemoveTag(tags[1..], tag);
      var r := RemoveTag(tags, tag);
      if tags[0] != tag {
        assert tags[0] !in tags[1..];
        assert r == [tags[0]] + rest;
        forall i, j | 0 <= i < j < |r| ensures r[i] != r[j] {
          if i == 0 { assert r[j] == rest[j - 1]; assert rest[j - 1] in rest; }
          else { assert r[i] == rest[i - 1] && r[j] == rest[j - 1]; }
        }
      }
    }
  }

  /** Filtering keeps the list free of blanks and repeats. */
  lemma RemoveTagKeepsGood(tags: seq<string>, tag: string)
    requires GoodTags(tags)
    ensures GoodTags(RemoveTag(tags, tag))
  {
    RemoveKeepsDistinct(tags, tag);
  }

  /** Removing a tag that was just added restores the list. */
  lemma AddThenRemove(e: TagEditor)
    requires Trim(e.newTag) != "" && Trim(e.newTag) !in e.tags
    ensures RemoveTag(AddTag(e).tags, Trim(e.newTag)) == e.tags
  {
    var t := Trim(e.newTag);
    RemoveTagConcat(e.tags, [t], t);
    RemoveAbsent(e.tags, t);
    assert RemoveTag([t], t) == [];
  }
}
