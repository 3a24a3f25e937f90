/** The home page (app/page.tsx): the restaurant list fetched once on mount and shown sorted by
    the chosen mode. */
module Home {
  import opened Wrappers
  import opened Sorting
  import opened Errors
  import opened Types

  /** The two orders of the sort menu. */
  datatype SortMode = Newest | ByRating

  const LoadFailedMessage: string := "Nem sikerült betölteni az éttermeket"

  /** The comparator keys: the creation time, and the average rating with a missing one read as 0. */
  function CreatedKey(r: Restaurant): real { r.createdAt as real }
  function RatingKey(r: Restaurant): real { r.averageRating.GetOr(0.0) }

  /** `sortedRestaurants`: a reordering of a copy of the fetched list, newest first or best rated
      first. */
  function SortedRestaurants(restaurants: seq<Restaurant>, sortBy: SortMode): (r: seq<Restaurant>)
    ensures multiset(r) == multiset(restaurants)
    ensures sortBy == Newest ==> NonIncreasing(r, CreatedKey)
    ensures sortBy == ByRating ==> NonIncreasing(r, RatingKey)
  {
    match sortBy
    case Newest =>
      SortDescSpec(restaurants, CreatedKey);
      SortDesc(restaurants, CreatedKey)
    case ByRating =>
      SortDescSpec(restaurants, RatingKey);
      SortDesc(restaurants, RatingKey)
  }

  /** Under "newest" a later restaurant is never listed after an earlier one. */
  lemma NewestFirst(restaurants: seq<Restaurant>, i: int, j: int)
    requires 0 <= i < j < |restaurants|
    ensures SortedRestaurants(restaurants, Newest)[i].createdAt >= SortedRestaurants(restaurants, Newest)[j].createdAt
  {
    var r := SortedRestaurants(restaurants, Newest);
    assert |r| == |multiset(r)| == |restaurants|;
    assert CreatedKey(r[i]) >= CreatedKey(r[j]);
  }

  /** Under "rating" an unrated restaurant never precedes one with a positive average. */
  lemma UnratedLast(restaurants: seq<Restaurant>, i: int, j: int)
    requires 0 <= i < j < |restaurants|
    requires SortedRestaurants(restaurants, ByRating)[i].averageRating.None?
    ensures SortedRestaurants(restaurants, ByRating)[j].averageRating.GetOr(0.0) <= 0.0
  {
    var r := SortedRestaurants(restaurants, ByRating);
    assert |r| == |multiset(r)| == |restaurants|;
    assert RatingKey(r[i]) >= RatingKey(r[j]);
  }

  /** The page's state. */
  class HomePage {
    var mounted: bool
    var sortBy: SortMode
    var restaurants: seq<Restaurant>
    var isLoading: bool
    var error: Option<string>

    /** Before the effect runs: not mounted, "newest", no list, loading, no error. */
    constructor ()
      ensures !mounted && sortBy == Newest && restaurants == [] && isLoading && error.None?
    {
      mounted := false;
      sortBy := Newest;
      restaurants := [];
      isLoading := true;
      error := None;
    }

    /** The list as rendered. */
    function Sorted(): seq<Restaurant>
      reads this
    {
      SortedRestaurants(restaurants, sortBy)
    }

    /** The mount effect with the outcome of `getRestaurants`: the list is stored on success, the
        error message set on failure, and loading ends either way. */
    method Mount(fetched: Outcome<seq<Restaurant>>)
      modifies this
      ensures mounted && !isLoading && sortBy == old(sortBy)
      ensures fetched.Returned? ==> restaurants == fetched.value && error == old(error)
      ensures fetched.Threw? ==> restaurants == old(restaurants) && error == Some(LoadFailedMessage)
    {
      mounted := true;
      match fetched {
        case Returned(data) =>
          restaurants := data;
        case Threw(_) =>
          error := Some(LoadFailedMessage);
      }
      isLoading := false;
    }

    /** A sort menu item: only the mode changes, so the fetched list itself is never reordered. */
    method SetSortBy(mode: SortMode)
      modifies this
      ensures sortBy == mode
      ensures restaurants == old(restaurants) && mounted == old(mounted) && isLoading == old(isLoading)
      ensures error == old(error)
    {
      sortBy := mode;
    }
  }
}
