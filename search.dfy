/** The search page (app/search/page.tsx): the text, price and rating filters over the static
    restaurant list, and the filter state the dropdown edits. */
module Search {
  import opened Wrappers
  import opened Seqs
  import opened Strings

  /** A restaurant of the static list the page searches. Only the columns the filter reads are
      kept; `reviewDishes` holds the dish names of each review, an absent review or dish list
      being the same as an empty one for the filter. */
  datatype Venue = Venue(
    id: string, name: string, address: string, priceTier: int, averageRating: Option<real>,
    reviewDishes: seq<seq<string>>)

  /** Some dish of some review contains the lowercased query. */
  predicate DishMatches(v: Venue, q: string) {
    exists k, d :: 0 <= k < |v.reviewDishes| && 0 <= d < |v.reviewDishes[k]| && Includes(ToLower(v.reviewDishes[k][d]), q)
  }

  /** The lowercased query occurs in the lowercased name, address or some dish name. */
  predicate MatchesSearch(v: Venue, query: string) {
    var q := ToLower(query);
    Includes(ToLower(v.name), q) || Includes(ToLower(v.address), q) || DishMatches(v, q)
  }

  /** No tier chosen accepts every tier; otherwise the tier must be one of the chosen. */
  predicate MatchesPrice(v: Venue, priceFilter: seq<int>) {
    |priceFilter| == 0 || v.priceTier in priceFilter
  }

  /** Minimum 0 accepts everything; otherwise the average, a missing one read as 0, must reach it. */
  predicate MatchesRating(v: Venue, ratingFilter: int) {
    ratingFilter == 0 || v.averageRating.GetOr(0.0) >= ratingFilter as real
  }

  predicate Kept(v: Venue, query: string, priceFilter: seq<int>, ratingFilter: int) {
    MatchesSearch(v, query) && MatchesPrice(v, priceFilter) && MatchesRating(v, ratingFilter)
  }

  /** `filteredRestaurants`: the venues all three filters accept, in list order. */
  function FilteredRestaurants(venues: seq<Venue>, query: string, priceFilter: seq<int>, ratingFilter: int): (r: seq<Venue>)
    ensures |r| <= |venues|
    ensures forall v :: v in r <==>
      v in venues && MatchesSearch(v, query) && MatchesPrice(v, priceFilter) && MatchesRating(v, ratingFilter)
  {
    Filter(venues, v => Kept(v, query, priceFilter, ratingFilter))
  }

  /** The result keeps the list order: it is the list with some venues deleted. */
  lemma FilteredIsSubsequence(venues: seq<Venue>, query: string, priceFilter: seq<int>, ratingFilter: int)
    ensures IsSubsequence(FilteredRestaurants(venues, query, priceFilter, ratingFilter), venues)
  {
    FilterIsSubsequence(venues, v => Kept(v, query, priceFilter, ratingFilter));
  }

  /** The text filter ignores the case of the query: a query and its lowercased form match the
      same venues. */
  lemma SearchIgnoresQueryCase(v: Venue, query: string)
    ensures MatchesSearch(v, query) <==> MatchesSearch(v, ToLower(query))
  {
    assert ToLower(ToLower(query)) == ToLower(query);
  }

  /** The empty query occurs in every name. */
  lemma EmptyQueryMatches(v: Venue)
    ensures MatchesSearch(v, "")
  {
    IncludesEmpty(ToLower(v.name));
  }

  /** With an empty query and no filter the page lists every venue, in order. */
  lemma NoFilterKeepsAll(venues: seq<Venue>)
    ensures FilteredRestaurants(venues, "", [], 0) == venues
  {
    forall v | v in venues ensures Kept(v, "", [], 0) {
      EmptyQueryMatches(v);
    }
    FilterAll(venues, v => Kept(v, "", [], 0));
  }

  /** A minimum rating above 0 excludes every venue without an average. */
  lemma UnratedExcluded(venues: seq<Venue>, query: string, priceFilter: seq<int>, ratingFilter: int, v: Venue)
    requires ratingFilter > 0 && v.averageRating.None?
    ensures v !in FilteredRestaurants(venues, query, priceFilter, ratingFilter)
  {
  }

  // ---------------------------------------------------------------------------------------------
  // Filter state

  /** `togglePriceFilter`: drop the tier if chosen, append it otherwise. */
  function TogglePrice(priceFilter: seq<int>, price: int): (r: seq<int>)
    ensures price in priceFilter ==> price !in r && forall p :: p in r <==> p in priceFilter && p != price
    ensures price !in priceFilter ==> r == priceFilter + [price]
  {
    if price in priceFilter then Filter(priceFilter, p => p != price) else priceFilter + [price]
  }

  /** Toggling never chooses a tier twice. */
  lemma TogglePriceNoDuplicates(priceFilter: seq<int>, price: int)
    requires NoDuplicates(priceFilter)
    ensures NoDuplicates(TogglePrice(priceFilter, price))
  {
    if price in priceFilter {
      FilterNoDuplicates(priceFilter, p => p != price);
    }
  }

  /** Toggling a tier twice chooses the same tiers as before; when the tier was not chosen, it
      restores the very list. */
  lemma TogglePriceTwice(priceFilter: seq<int>, price: int)
    ensures forall p :: p in TogglePrice(TogglePrice(priceFilter, price), price) <==> p in priceFilter
    ensures price !in priceFilter ==> TogglePrice(TogglePrice(priceFilter, price), price) == priceFilter
  {
    if price !in priceFilter {
      var once := priceFilter + [price];
      FilterAll(priceFilter, p => p != price);
      assert Filter(once, p => p != price) == Filter(priceFilter, p => p != price) by {
        FilterConcatLast(priceFilter, price, p => p != price);
      }
    }
  }

  /** Filtering `s + [x]` where `x` is rejected is filtering `s`. */
  lemma {:induction false} FilterConcatLast<T(!new)>(s: seq<T>, x: T, keep: T -> bool)
    requires !keep(x)
    ensures Filter(s + [x], keep) == Filter(s, keep)
  {
    if s == [] {
      assert Filter([x], keep) == [] + Filter([], keep);
    } else {
      assert (s + [x])[1..] == s[1..] + [x];
      FilterConcatLast(s[1..], x, keep);
    }
  }

  /** Some filter is active: a tier is chosen or a minimum rating is set. */
  predicate HasActiveFilters(priceFilter: seq<int>, ratingFilter: int) {
    |priceFilter| > 0 || ratingFilter > 0
  }

  /** The number the filter badge shows: one per chosen tier, one for a minimum rating. */
  function ActiveFilterCount(priceFilter: seq<int>, ratingFilter: int): (n: nat)
    ensures n == 0 <==> !HasActiveFilters(priceFilter, ratingFilter)
    ensures n == |priceFilter| || n == |priceFilter| + 1
    ensures ratingFilter > 0 <==> n == |priceFilter| + 1
  {
    |priceFilter| + (if ratingFilter > 0 then 1 else 0)
  }

  /** The page's state: the query typed, the tiers chosen and the minimum rating. */
  class SearchPage {
    var searchQuery: string
    var priceFilter: seq<int>
    var ratingFilter: int
    var isLoading: bool

    /** The dropdown never chooses a tier twice. */
    ghost predicate Valid()
      reads this
    {
      NoDuplicates(priceFilter)
    }

    /** The page opens with an empty query, no filter and the loading placeholder. */
    constructor ()
      ensures Valid()
      ensures searchQuery == "" && priceFilter == [] && ratingFilter == 0 && isLoading
    {
      searchQuery := "";
      priceFilter := [];
      ratingFilter := 0;
      isLoading := true;
    }

    /** The venues the page lists for the current state. */
    function Results(venues: seq<Venue>): seq<Venue>
      reads this
    {
      FilteredRestaurants(venues, searchQuery, priceFilter, ratingFilter)
    }

    /** The input's `onChange`. */
    method SetSearchQuery(query: string)
      modifies this
      ensures searchQuery == query
      ensures priceFilter == old(priceFilter) && ratingFilter == old(ratingFilter) && isLoading == old(isLoading)
    {
      searchQuery := query;
    }

    /** `clearSearch`: empty the query and keep the filters. */
    method ClearSearch()
      modifies this
      ensures searchQuery == ""
      ensures priceFilter == old(priceFilter) && ratingFilter == old(ratingFilter) && isLoading == old(isLoading)
    {
      searchQuery := "";
    }

    /** `clearFilters`: no tier and no minimum rating; the query stays. */
    method ClearFilters()
      modifies this
      ensures Valid()
      ensures priceFilter == [] && ratingFilter == 0
      ensures !HasActiveFilters(priceFilter, ratingFilter)
      ensures searchQuery == old(searchQuery) && isLoading == old(isLoading)
    {
      priceFilter := [];
      ratingFilter := 0;
    }

    /** `togglePriceFilter`. */
    method TogglePriceFilter(price: int)
      requires Valid()
      modifies this
      ensures Valid()
      ensures priceFilter == TogglePrice(old(priceFilter), price)
      ensures price in priceFilter <==> price !in old(priceFilter)
      ensures searchQuery == old(searchQuery) && ratingFilter == old(ratingFilter) && isLoading == old(isLoading)
    {
      TogglePriceNoDuplicates(priceFilter, price);
      if price in priceFilter {
        priceFilter := Filter(priceFilter, p => p != price);
      } else {
        priceFilter := priceFilter + [price];
      }
    }

    /** A minimum-rating button. */
    method SetRatingFilter(rating: int)
      modifies this
      ensures ratingFilter == rating
      ensures searchQuery == old(searchQuery) && priceFilter == old(priceFilter) && isLoading == old(isLoading)
    {
      ratingFilter := rating;
    }

    /** The loading timer firing. */
    method FinishLoading()
      modifies this
      ensures !isLoading
      ensures searchQuery == old(searchQuery) && priceFilter == old(priceFilter) && ratingFilter == old(ratingFilter)
    {
      isLoading := false;
    }
  }
}
