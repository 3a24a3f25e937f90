/** The star rating input (components/star-rating.tsx): five stars, a click reports a rating,
    hovering previews one. */
module StarRating {

  /** The stars, in display order. */
  const Stars: seq<int> := [1, 2, 3, 4, 5]

  /** `hoverRating || rating`: the hovered star while one is hovered, else the current rating. */
  function DisplayLevel(hoverRating: int, rating: int): (level: int)
    ensures hoverRating != 0 ==> level == hoverRating
    ensures hoverRating == 0 ==> level == rating
  {
    if hoverRating != 0 then hoverRating else rating
  }

  /** Star `star` is drawn filled when the displayed level reaches it. */
  predicate Filled(hoverRating: int, rating: int, star: int) {
    DisplayLevel(hoverRating, rating) >= star
  }

  /** The fill of each star in display order, the `[1, 2, 3, 4, 5].map` of the fill rule. */
  function StarFills(hoverRating: int, rating: int): (fills: seq<bool>)
    ensures |fills| == |Stars|
    ensures forall i :: 0 <= i < |Stars| ==> (fills[i] <==> Filled(hoverRating, rating, Stars[i]))
  {
    seq(|Stars|, i requires 0 <= i < |Stars| => Filled(hoverRating, rating, Stars[i]))
  }

  /** How many stars a level fills: none at 0 or below, all five from 5 up. */
  function FilledCount(level: int): (n: nat)
    ensures n <= |Stars|
    ensures 0 <= level <= |Stars| ==> n == level
  {
    if level <= 0 then 0 else if level >= 5 then 5 else level
  }

  /** The filled stars are exactly the first `FilledCount(level)` ones: star `i + 1` is filled iff
      `i` is below the count. */
  lemma FilledStarsArePrefix(hoverRating: int, rating: int)
    ensures var n := FilledCount(DisplayLevel(hoverRating, rating));
      forall i :: 0 <= i < |Stars| ==> (StarFills(hoverRating, rating)[i] <==> i < n)
  {
    forall i | 0 <= i < |Stars| ensures Stars[i] == i + 1 {
      assert Stars == [1, 2, 3, 4, 5];
    }
  }

  /** The hover state of the stars; the current rating is the parent's. */
  class StarRatingState {
    var hoverRating: int

    /** Nothing hovered at first. */
    constructor ()
      ensures hoverRating == 0
    {
      hoverRating := 0;
    }

    /** A click on star `star` reports exactly that rating to `onRatingChange`. */
    method Click(star: int) returns (reported: int)
      requires star in Stars
      ensures reported == star && 1 <= reported <= 5
    {
      reported := star;
    }

    /** The mouse entering star `star`. */
    method MouseEnter(star: int)
      requires star in Stars
      modifies this
      ensures hoverRating == star
    {
      hoverRating := star;
    }

    /** The mouse leaving a star. */
    method MouseLeave()
      modifies this
      ensures hoverRating == 0
    {
      hoverRating := 0;
    }
  }

  /** While no star is hovered the stars show the rating; while star `k` is hovered they show
      `k` whatever the rating: exactly the first `k` stars are filled. */
  lemma HoverPreview(rating: int, k: int)
    requires k in Stars
    ensures forall i :: 0 <= i < |Stars| ==> (StarFills(0, rating)[i] <==> i < FilledCount(rating))
    ensures forall i :: 0 <= i < |Stars| ==> (StarFills(k, rating)[i] <==> i < k)
  {
    FilledStarsArePrefix(0, rating);
    FilledStarsArePrefix(k, rating);
    assert 1 <= k <= 5;
  }
}
