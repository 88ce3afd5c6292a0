/** The catalogue pages of the storefront and of the admin panel: the
    category list, the search filter and sort, the search suggestions, and
    the discount form's initial values. */
module Catalogue {
  import opened Results
  import opened Text
  import opened Seqs
  import opened Sorting
  import opened Models
  import Admin

  /** The filter that drops every occurrence of `x`. */
  function Differs(x: string): string -> bool {
    y => y != x
  }

  /** `[...new Set(s)]`: each value once, at its first occurrence. */
  function Dedupe(s: seq<string>): seq<string>
    decreases |s|
  {
    if s == [] then [] else [s[0]] + Dedupe(Filter(s[1..], Differs(s[0])))
  }

  /** Deduplication keeps every value that occurs and adds none. */
  lemma {:induction false} DedupeMembership(s: seq<string>, x: string)
    ensures x in Dedupe(s) <==> x in s
    decreases |s|
  {
    if s != [] {
      var f := Filter(s[1..], Differs(s[0]));
      FilterMembership(s[1..], Differs(s[0]), x);
      DedupeMembership(f, x);
      assert s == [s[0]] + s[1..];
    }
  }

  /** A value put in front of a sequence without repetitions that lacks it
      gives a sequence without repetitions. */
  lemma ConsDistinct(h: string, t: seq<string>)
    requires Distinct(t) && h !in t
    ensures Distinct([h] + t)
  {
    var r := [h] + t;
    forall i, j | 0 <= i < j < |r|
      ensures r[i] != r[j]
    {
      assert r[j] == t[j - 1];
      if i > 0 {
        assert r[i] == t[i - 1];
      }
    }
  }

  /** Deduplication leaves no value twice. */
  lemma {:induction false} DedupeDistinct(s: seq<string>)
    ensures Distinct(Dedupe(s))
    decreases |s|
  {
    if s != [] {
      var f := Filter(s[1..], Differs(s[0]));
      DedupeDistinct(f);
      DedupeMembership(f, s[0]);
      FilterMembership(s[1..], Differs(s[0]), s[0]);
      ConsDistinct(s[0], Dedupe(f));
    }
  }

  /** The category of each listing, in catalogue order. */
  function CategoryColumn(ls: seq<Listing>): (r: seq<string>)
    ensures |r| == |ls|
    ensures forall i :: 0 <= i < |ls| ==> r[i] == ls[i].product.category
  {
    seq(|ls|, i requires 0 <= i < |ls| => ls[i].product.category)
  }

  predicate NonEmpty(c: string) {
    c != ""
  }

  /** A category is listed exactly when it is not empty and some listing
      has it. */
  lemma CategoriesMembership(ls: seq<Listing>, c: string)
    ensures c in Filter(Dedupe(CategoryColumn(ls)), NonEmpty) <==>
            c != "" && exists i :: 0 <= i < |ls| && ls[i].product.category == c
  {
    var all := CategoryColumn(ls);
    FilterMembership(Dedupe(all), NonEmpty, c);
    DedupeMembership(all, c);
    if c in all {
      var i :| 0 <= i < |all| && all[i] == c;
      assert ls[i].product.category == c;
    }
    if exists i :: 0 <= i < |ls| && ls[i].product.category == c {
      var i :| 0 <= i < |ls| && ls[i].product.category == c;
      assert all[i] == c;
    }
  }

  /** The categories of the listings: `[...new Set(categories)]` with the
      empty ones dropped, as the storefront and the admin product page both
      compute them. */
  function Categories(ls: seq<Listing>): (r: seq<string>)
    ensures Distinct(r)
    ensures forall i :: 0 <= i < |r| ==> r[i] != ""
    ensures forall c :: c in r <==> c != "" && exists i :: 0 <= i < |ls| && ls[i].product.category == c
  {
    DedupeDistinct(CategoryColumn(ls));
    FilterDistinct(Dedupe(CategoryColumn(ls)), NonEmpty);
    forall c {
      CategoriesMembership(ls, c);
    }
    Filter(Dedupe(CategoryColumn(ls)), NonEmpty)
  }

  /** The storefront's search test: the term occurs in the name or the
      description, ignoring case. */
  predicate MatchesNameOrDescription(l: Listing, term: string) {
    ContainsIgnoringCase(l.product.name, term) || ContainsIgnoringCase(l.product.description, term)
  }

  /** No category selected, or the listing's category is the selected one. */
  predicate InCategory(l: Listing, category: string) {
    category == "" || l.product.category == category
  }

  function StorefrontMatch(term: string, category: string): Listing -> bool {
    l => MatchesNameOrDescription(l, term) && InCategory(l, category)
  }

  /** The sort menu: `price-low`, `price-high`, `name`, anything else
      keeps the catalogue order. */
  datatype SortMode = PriceLow | PriceHigh | ByName | Unsorted

  /** The menu value that selects a sort mode. */
  function SortModeName(m: SortMode): string {
    match m
    case PriceLow => "price-low"
    case PriceHigh => "price-high"
    case ByName => "name"
    case Unsorted => ""
  }

  /** Reads the `sortBy` value: each of the three menu values selects its
      mode, and any other value leaves the catalogue order. */
  function ParseSortMode(s: string): (r: SortMode)
    ensures r != Unsorted ==> SortModeName(r) == s
    ensures s !in {"price-low", "price-high", "name"} ==> r == Unsorted
    ensures forall m :: m != Unsorted && s == SortModeName(m) ==> r == m
  {
    if s == "price-low" then PriceLow
    else if s == "price-high" then PriceHigh
    else if s == "name" then ByName
    else Unsorted
  }

  /** The comparator for a sort mode; `collate` stands for
      `localeCompare`, which the model leaves abstract. */
  function Comparator(mode: SortMode, collate: (string, string) -> int): (Listing, Listing) -> int {
    match mode
    case PriceLow => (a: Listing, b: Listing) => a.product.price - b.product.price
    case PriceHigh => (a: Listing, b: Listing) => b.product.price - a.product.price
    case ByName => (a: Listing, b: Listing) => collate(a.product.name, b.product.name)
    case Unsorted => (a: Listing, b: Listing) => 0
  }

  function Price(l: Listing): int {
    l.product.price
  }

  function NegatedPrice(l: Listing): int {
    -l.product.price
  }

  /** The storefront's product grid: exactly the listings matching the
      search in name or description and the selected category, each as
      often as in the catalogue, sorted by the chosen mode (cheapest first,
      dearest first, or in catalogue order). */
  function StorefrontProducts(ls: seq<Listing>, term: string, category: string, mode: SortMode,
                              collate: (string, string) -> int): (r: seq<Listing>)
    ensures forall l :: l in r <==> l in ls && MatchesNameOrDescription(l, term) && InCategory(l, category)
    ensures multiset(r) == multiset(Filter(ls, StorefrontMatch(term, category)))
    ensures mode == PriceLow ==>
      forall i, j :: 0 <= i < j < |r| ==> r[i].product.price <= r[j].product.price
    ensures mode == PriceHigh ==>
      forall i, j :: 0 <= i < j < |r| ==> r[i].product.price >= r[j].product.price
    ensures mode == Unsorted ==> IsSubsequence(r, ls)
  {
    var kept := Filter(ls, StorefrontMatch(term, category));
    var r := Sort(kept, Comparator(mode, collate));
    forall l
      ensures l in r <==> l in ls && MatchesNameOrDescription(l, term) && InCategory(l, category)
    {
      assert l in r <==> l in multiset(r);
      assert l in kept <==> l in multiset(kept);
      FilterMembership(ls, StorefrontMatch(term, category), l);
    }
    assert mode == PriceLow ==> SortedBy(r, Price) by {
      if mode == PriceLow {
        SortSorted(kept, Comparator(mode, collate), Price);
      }
    }
    assert mode == PriceHigh ==> SortedBy(r, NegatedPrice) by {
      if mode == PriceHigh {
        SortSorted(kept, Comparator(mode, collate), NegatedPrice);
      }
    }
    assert mode == Unsorted ==> r == kept by {
      if mode == Unsorted {
        SortKeepsOrder(kept, Comparator(mode, collate));
      }
    }
    r
  }

  /** With no search term and no category, the grid holds the whole
      catalogue; unsorted, in catalogue order. */
  lemma EmptySearchKeepsAll(ls: seq<Listing>, mode: SortMode, collate: (string, string) -> int)
    ensures multiset(StorefrontProducts(ls, "", "", mode, collate)) == multiset(ls)
    ensures mode == Unsorted ==> StorefrontProducts(ls, "", "", mode, collate) == ls
  {
    forall i | 0 <= i < |ls|
      ensures StorefrontMatch("", "")(ls[i])
    {
      ContainsEmpty(ls[i].product.name);
    }
    FilterAll(ls, StorefrontMatch("", ""));
    if mode == Unsorted {
      SortKeepsOrder(ls, Comparator(mode, collate));
    }
  }

  /** The storefront's suggestion test: name, description or category. */
  predicate SuggestionMatch(l: Listing, term: string) {
    || ContainsIgnoringCase(l.product.name, term)
    || ContainsIgnoringCase(l.product.description, term)
    || ContainsIgnoringCase(l.product.category, term)
  }

  /** The first five matches, in catalogue order. When there are fewer
      than five, all of them. */
  lemma TakeFiveOfMatches(ls: seq<Listing>, keep: Listing -> bool)
    ensures |Take(Filter(ls, keep), 5)| == if |Filter(ls, keep)| < 5 then |Filter(ls, keep)| else 5
    ensures Take(Filter(ls, keep), 5) == Filter(ls, keep)[..|Take(Filter(ls, keep), 5)|]
    ensures IsSubsequence(Take(Filter(ls, keep), 5), ls)
    ensures forall i :: 0 <= i < |Take(Filter(ls, keep), 5)| ==> keep(Take(Filter(ls, keep), 5)[i])
    ensures |Take(Filter(ls, keep), 5)| < 5 ==>
      forall l :: l in ls && keep(l) ==> l in Take(Filter(ls, keep), 5)
  {
    var f := Filter(ls, keep);
    var r := Take(f, 5);
    assert r == f[..|r|];
    PrefixIsSubsequence(f, |r|);
    SubsequenceTransitive(r, f, ls);
    forall l | l in ls && keep(l) && |r| < 5
      ensures l in r
    {
      FilterMembership(ls, keep, l);
    }
  }

  /** The storefront's suggestion filter. */
  function Suggests(term: string): Listing -> bool {
    l => SuggestionMatch(l, term)
  }

  /** The storefront's suggestions: none for a blank term or one shorter
      than two UTF-16 code units; otherwise the first five listings matching
      in name, description or category, in catalogue order, or every match
      when there are fewer than five. */
  function StorefrontSuggestions(ls: seq<Listing>, term: string): (r: seq<Listing>)
    ensures AllSpace(term) || Utf16Length(term) < 2 ==> r == []
    ensures |r| <= 5
    ensures forall i :: 0 <= i < |r| ==> SuggestionMatch(r[i], term)
    ensures IsSubsequence(r, ls)
    ensures !AllSpace(term) && Utf16Length(term) >= 2 ==>
      && |r| == (if |Filter(ls, Suggests(term))| < 5 then |Filter(ls, Suggests(term))| else 5)
      && r == Filter(ls, Suggests(term))[..|r|]
    ensures !AllSpace(term) && Utf16Length(term) >= 2 && |r| < 5 ==>
      forall l :: l in ls && SuggestionMatch(l, term) ==> l in r
  {
    TrimEmptyIff(term);
    if Trim(term) == "" || Utf16Length(term) < 2 then []
    else
      TakeFiveOfMatches(ls, Suggests(term));
      Take(Filter(ls, Suggests(term)), 5)
  }

  /** The admin panel's search test: the name only, ignoring case. */
  predicate NameMatches(l: Listing, term: string) {
    ContainsIgnoringCase(l.product.name, term)
  }

  /** The admin panel's product list: exactly the listings whose name
      matches the term and whose category is the selected one, in catalogue
      order. A match in the description alone does not count. */
  function AdminProducts(ls: seq<Listing>, term: string, category: string): (r: seq<Listing>)
    ensures forall l :: l in r <==> l in ls && NameMatches(l, term) && InCategory(l, category)
    ensures forall l :: multiset(r)[l] == if NameMatches(l, term) && InCategory(l, category) then multiset(ls)[l] else 0
    ensures IsSubsequence(r, ls)
  {
    var keep := (l: Listing) => NameMatches(l, term) && InCategory(l, category);
    forall l {
      FilterMembership(ls, keep, l);
    }
    Filter(ls, keep)
  }

  /** The admin panel's suggestion filter. */
  function InNameOrDescription(term: string): Listing -> bool {
    l => MatchesNameOrDescription(l, term)
  }

  /** The admin panel's suggestions: none for a term shorter than two
      UTF-16 code units (a blank term of two spaces is searched for);
      otherwise the first five listings matching in name or description, in
      catalogue order, or every match when there are fewer than five. */
  function AdminSuggestions(ls: seq<Listing>, term: string): (r: seq<Listing>)
    ensures Utf16Length(term) < 2 ==> r == []
    ensures |r| <= 5
    ensures forall i :: 0 <= i < |r| ==> MatchesNameOrDescription(r[i], term)
    ensures IsSubsequence(r, ls)
    ensures Utf16Length(term) >= 2 ==>
      && |r| == (if |Filter(ls, InNameOrDescription(term))| < 5 then |Filter(ls, InNameOrDescription(term))| else 5)
      && r == Filter(ls, InNameOrDescription(term))[..|r|]
    ensures Utf16Length(term) >= 2 && |r| < 5 ==>
      forall l :: l in ls && MatchesNameOrDescription(l, term) ==> l in r
  {
    if Utf16Length(term) >= 2 then
      TakeFiveOfMatches(ls, InNameOrDescription(term));
      Take(Filter(ls, InNameOrDescription(term)), 5)
    else []
  }

  /** A one-character search for an emoji is searched for: JavaScript
      counts it as two code units. */
  lemma EmojiTermIsSearched(ls: seq<Listing>)
    ensures AdminSuggestions(ls, "\U{1F600}") == Take(Filter(ls, InNameOrDescription("\U{1F600}")), 5)
  {
    EmojiHasLengthTwo();
  }

  /** The discount form as the admin panel opens it for a product. */
  datatype DiscountForm = DiscountForm(percentage: int, startDate: Option<int>, endDate: Option<int>, isActive: bool)

  /** Opening the discount form: the stored percentage or 0, the stored
      dates, and the stored active flag (false by default). */
  function PrefillDiscount(p: Product): (f: DiscountForm)
    ensures p.discount.percentage.Some? ==> f.percentage == p.discount.percentage.value
    ensures p.discount.percentage.None? ==> f.percentage == 0
    ensures f.isActive == p.discount.isActive
  {
    DiscountForm(p.discount.percentage.GetOr(0), p.discount.startDate, p.discount.endDate, p.discount.isActive)
  }

  /** The request the form submits. */
  function FormRequest(f: DiscountForm): Admin.DiscountRequest {
    Admin.DiscountRequest(Some(f.percentage), f.startDate, f.endDate, f.isActive)
  }

  /** The stored discount, read back as the request that set it. */
  function StoredRequest(d: Discount): Admin.DiscountRequest {
    Admin.DiscountRequest(d.percentage, d.startDate, d.endDate, d.isActive)
  }

  /** Submitting the form unchanged re-applies the stored discount: the
      defaults it fills in (0 per cent for an absent percentage) take
      nothing off, so a price that reflects the stored discount is kept. */
  lemma ResubmittedFormKeepsPrice(s: Store, id: ProductId)
    requires id in s.products
    requires !Admin.PercentageOutOfRange(s.products[id].discount.percentage)
    requires ProductFieldsPresent(s.products[id])
    requires s.products[id].price == Admin.NewPrice(s.products[id], StoredRequest(s.products[id].discount))
    ensures var p := s.products[id];
            var r := Admin.ApplyDiscount(s, id, FormRequest(PrefillDiscount(p)));
            r.Success? && r.value.products[id].price == p.price
  {
  }
}
