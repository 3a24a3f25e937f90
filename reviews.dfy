/** Reviews and the derived average rating of a restaurant (lib/actions/reviews.ts). */
module Reviews {
  import opened Wrappers
  import opened Seqs
  import opened Sorting
  import opened Errors
  import opened Store
  import opened Types

  function ReviewRestaurant(r: ReviewRow): Id { r.restaurantId }
  function ReviewCreated(r: ReviewRow): real { r.createdAt as real }
  function DishReview(d: DishRow): Id { d.reviewId }

  // ---------------------------------------------------------------------------------------------
  // The average rating

  /** The `rating` column of some review rows, in order. */
  function RatingsOf(rows: seq<ReviewRow>): (ratings: seq<int>)
    ensures |ratings| == |rows|
    ensures forall k :: 0 <= k < |rows| ==> ratings[k] == rows[k].rating
  {
    if rows == [] then [] else [rows[0].rating] + RatingsOf(rows[1..])
  }

  lemma {:induction false} RatingsOfAppend(a: seq<ReviewRow>, b: seq<ReviewRow>)
    ensures RatingsOf(a + b) == RatingsOf(a) + RatingsOf(b)
  {
    if a != [] {
      assert (a + b)[1..] == a[1..] + b;
      RatingsOfAppend(a[1..], b);
    } else {
      assert a + b == b;
    }
  }

  /** `select("rating").eq("restaurant_id", restaurantId)`: the ratings of the restaurant's
      reviews, in table order. */
  function Ratings(reviews: seq<ReviewRow>, restaurantId: Id): (ratings: seq<int>)
    ensures |ratings| == |Matching(reviews, ReviewRestaurant, restaurantId)|
    ensures forall v :: v in ratings <==> exists x :: x in reviews && x.restaurantId == restaurantId && x.rating == v
  {
    var m := Matching(reviews, ReviewRestaurant, restaurantId);
    assert forall x :: x in m ==> RatingsOf(m)[IndexIn(m, x)] == x.rating;
    RatingsOf(m)
  }

  /** `reduce((sum, rating) => sum + rating, 0)`, a left fold. */
  function Sum(ratings: seq<int>): int {
    if ratings == [] then 0 else Sum(ratings[..|ratings| - 1]) + ratings[|ratings| - 1]
  }

  /** The sum of two runs of ratings is the sum of their sums: the fold depends only on what is
      summed, not on where the left fold starts. */
  lemma {:induction false} SumConcat(a: seq<int>, b: seq<int>)
    ensures Sum(a + b) == Sum(a) + Sum(b)
    decreases |b|
  {
    if b == [] {
      assert a + b == a;
    } else {
      var bs := b[..|b| - 1];
      assert (a + b)[..|a + b| - 1] == a + bs;
      SumConcat(a, bs);
    }
  }

  /** The value written to `average_rating`: the sum over the count, or null for no ratings. */
  function Average(ratings: seq<int>): (avg: Option<real>)
    ensures avg.None? <==> ratings == []
    ensures avg.Some? ==> avg.value * (|ratings| as real) == Sum(ratings) as real
  {
    if |ratings| > 0 then Some(Sum(ratings) as real / |ratings| as real) else None
  }

  lemma {:induction false} SumBounds(ratings: seq<int>)
    requires forall i :: 0 <= i < |ratings| ==> 1 <= ratings[i] <= 5
    ensures |ratings| <= Sum(ratings) <= 5 * |ratings|
  {
    if ratings != [] {
      SumBounds(ratings[..|ratings| - 1]);
    }
  }

  /** Ratings on the 1..5 scale give an average on the same scale. */
  lemma AverageInRange(ratings: seq<int>)
    requires forall i :: 0 <= i < |ratings| ==> 1 <= ratings[i] <= 5
    ensures Average(ratings).Some? ==> 1.0 <= Average(ratings).value <= 5.0
  {
    SumBounds(ratings);
    if ratings != [] {
      var n := |ratings| as real;
      var a := Average(ratings).value;
      var total := Sum(ratings);
      assert a * n == total as real;
      assert |ratings| <= total <= 5 * |ratings|;
      assert (5 * |ratings|) as real == 5.0 * n;
      assert n <= total as real <= 5.0 * n;
      assert n > 0.0;
      ScaleBack(a, n, total as real);
    }
  }

  /** A positive factor can be cancelled from both bounds. */
  lemma ScaleBack(a: real, n: real, total: real)
    requires n > 0.0 && a * n == total && n <= total <= 5.0 * n
    ensures 1.0 <= a <= 5.0
  {
    PositiveProduct(1.0 - a, n);
    PositiveProduct(a - 5.0, n);
  }

  lemma PositiveProduct(x: real, y: real)
    ensures x > 0.0 && y > 0.0 ==> x * y > 0.0
  {
  }

  /** Every stored rating is on the 1..5 scale, so every recomputed average is too. */
  lemma StoredAverageInRange(reviews: seq<ReviewRow>, restaurantId: Id)
    requires forall i :: 0 <= i < |reviews| ==> 1 <= reviews[i].rating <= 5
    ensures var avg := Average(Ratings(reviews, restaurantId));
      avg.Some? ==> 1.0 <= avg.value <= 5.0
  {
    var m := Matching(reviews, ReviewRestaurant, restaurantId);
    assert forall i :: 0 <= i < |m| ==> m[i] in reviews;
    AverageInRange(Ratings(reviews, restaurantId));
  }

  /** The central invariant: every restaurant's `average_rating` is the average of the current
      ratings of its reviews, or null when it has none. */
  ghost predicate AveragesConsistent(restaurants: seq<RestaurantRow>, reviews: seq<ReviewRow>)
    ensures AveragesConsistent(restaurants, reviews) ==> forall i :: 0 <= i < |restaurants| ==>
      (restaurants[i].averageRating.None? <==> Ratings(reviews, restaurants[i].id) == [])
  {
    forall i :: 0 <= i < |restaurants| ==>
      restaurants[i].averageRating == Average(Ratings(reviews, restaurants[i].id))
  }

  /** Every review refers to a stored restaurant (the `restaurant_id` foreign key). */
  ghost predicate ReviewsReferenced(restaurants: seq<RestaurantRow>, reviews: seq<ReviewRow>) {
    forall r :: r in reviews ==> r.restaurantId in Keys(restaurants, RestaurantKey)
  }

  /** The ids handed out so far cover every stored restaurant and every restaurant a review
      names, deleted ones included; so a restaurant created under an id never handed out has no
      reviews. */
  ghost predicate IdsIssued(restaurants: seq<RestaurantRow>, reviews: seq<ReviewRow>, issued: seq<Id>) {
    && (forall x :: x in Keys(restaurants, RestaurantKey) ==> x in issued)
    && (forall r :: r in reviews ==> r.restaurantId in issued)
  }

  /** `update({ average_rating }).eq("id", restaurantId)` on the restaurants table. */
  function SetAverage(rows: seq<RestaurantRow>, restaurantId: Id, avg: Option<real>): (r: seq<RestaurantRow>)
    ensures |r| == |rows|
    ensures forall i :: 0 <= i < |rows| && rows[i].id != restaurantId ==> r[i] == rows[i]
    ensures forall i :: 0 <= i < |rows| && rows[i].id == restaurantId ==> r[i] == rows[i].(averageRating := avg)
    ensures Keys(r, RestaurantKey) == Keys(rows, RestaurantKey)
  {
    seq(|rows|, i requires 0 <= i < |rows| =>
      if rows[i].id == restaurantId then rows[i].(averageRating := avg) else rows[i])
  }

  /** Recomputing one restaurant's average restores the invariant when no other restaurant's
      ratings changed. */
  lemma RecomputeConsistent(restaurants: seq<RestaurantRow>, before: seq<ReviewRow>, after: seq<ReviewRow>, restaurantId: Id)
    requires AveragesConsistent(restaurants, before)
    requires forall other :: other != restaurantId ==> Ratings(after, other) == Ratings(before, other)
    ensures AveragesConsistent(SetAverage(restaurants, restaurantId, Average(Ratings(after, restaurantId))), after)
  {
  }

  /** A new review changes the ratings of its own restaurant only, where it comes last. */
  lemma RatingsAfterInsert(reviews: seq<ReviewRow>, row: ReviewRow)
    ensures Ratings(reviews + [row], row.restaurantId) == Ratings(reviews, row.restaurantId) + [row.rating]
    ensures forall other :: other != row.restaurantId ==> Ratings(reviews + [row], other) == Ratings(reviews, other)
  {
    MatchingAppend(reviews, [row], ReviewRestaurant, row.restaurantId);
    assert Matching([row], ReviewRestaurant, row.restaurantId) == [row];
    RatingsOfAppend(Matching(reviews, ReviewRestaurant, row.restaurantId), [row]);
    assert RatingsOf([row]) == [row.rating];
    forall other | other != row.restaurantId
      ensures Ratings(reviews + [row], other) == Ratings(reviews, other)
    {
      MatchingAppend(reviews, [row], ReviewRestaurant, other);
      assert Matching(reviews, ReviewRestaurant, other) + [] == Matching(reviews, ReviewRestaurant, other);
    }
  }

  /** Deleting review `id`, which belongs to `restaurantId`, changes no other restaurant's ratings. */
  lemma RatingsAfterDelete(reviews: seq<ReviewRow>, id: Id, restaurantId: Id)
    requires forall i :: 0 <= i < |reviews| && reviews[i].id == id ==> reviews[i].restaurantId == restaurantId
    ensures forall other :: other != restaurantId ==>
      Ratings(FilterOut(reviews, ReviewKey, id), other) == Ratings(reviews, other)
  {
    forall other | other != restaurantId {
      MatchingFilterOut(reviews, ReviewKey, id, ReviewRestaurant, other);
    }
  }

  /** Deleting the only review of a restaurant leaves it without ratings, so its average is null. */
  lemma LastReviewDeleted(reviews: seq<ReviewRow>, row: ReviewRow)
    requires Matching(reviews, ReviewRestaurant, row.restaurantId) == [row]
    ensures Ratings(FilterOut(reviews, ReviewKey, row.id), row.restaurantId) == []
    ensures Average(Ratings(FilterOut(reviews, ReviewKey, row.id), row.restaurantId)) == None
  {
    var rest := FilterOut(reviews, ReviewKey, row.id);
    forall i | 0 <= i < |rest| ensures ReviewRestaurant(rest[i]) != row.restaurantId {
      var x := rest[i];
      assert x in rest;
      assert x in Matching(reviews, ReviewRestaurant, row.restaurantId) ==> x == row;
    }
    MatchingNone(rest, ReviewRestaurant, row.restaurantId);
  }

  /** Recomputing after an insert, delete or same-restaurant update keeps the invariant. */
  lemma InsertKeepsConsistent(restaurants: seq<RestaurantRow>, reviews: seq<ReviewRow>, row: ReviewRow)
    requires AveragesConsistent(restaurants, reviews)
    ensures AveragesConsistent(
      SetAverage(restaurants, row.restaurantId, Average(Ratings(reviews + [row], row.restaurantId))), reviews + [row])
  {
    RatingsAfterInsert(reviews, row);
    RecomputeConsistent(restaurants, reviews, reviews + [row], row.restaurantId);
  }

  lemma DeleteKeepsConsistent(restaurants: seq<RestaurantRow>, reviews: seq<ReviewRow>, row: ReviewRow)
    requires AveragesConsistent(restaurants, reviews)
    requires UniqueKeys(reviews, ReviewKey) && row in reviews
    ensures var after := FilterOut(reviews, ReviewKey, row.id);
      AveragesConsistent(SetAverage(restaurants, row.restaurantId, Average(Ratings(after, row.restaurantId))), after)
  {
    forall i | 0 <= i < |reviews| && reviews[i].id == row.id ensures reviews[i].restaurantId == row.restaurantId {
      var j :| 0 <= j < |reviews| && reviews[j] == row;
      assert i == j;
    }
    RatingsAfterDelete(reviews, row.id, row.restaurantId);
    RecomputeConsistent(restaurants, reviews, FilterOut(reviews, ReviewKey, row.id), row.restaurantId);
  }

  // ---------------------------------------------------------------------------------------------
  // Changing reviews and dishes

  /** The columns a caller supplies for a new review; the store adds `id` and `created_at`. */
  datatype NewReview = NewReview(restaurantId: Id, userId: Id, rating: int, message: string)

  /** A dish as the form sends it, before it is tagged with its review. */
  datatype NewDish = NewDish(name: string, price: Option<real>)

  /** The columns a `Partial<Review>` update may set. */
  datatype ReviewPatch = ReviewPatch(
    restaurantId: Option<Id>, userId: Option<Id>, rating: Option<int>, message: Option<string>)

  /** The row `insert(review).select().single()` stores and returns. */
  function InsertedReview(reviews: seq<ReviewRow>, issued: seq<Id>, review: NewReview, now: Timestamp): (row: ReviewRow)
    ensures row.id !in Keys(reviews, ReviewKey) && row.id !in issued
    ensures row.restaurantId == review.restaurantId && row.userId == review.userId
    ensures row.rating == review.rating && row.message == review.message && row.createdAt == now
  {
    ReviewRow(FreshId(Keys(reviews, ReviewKey) + issued), review.restaurantId, review.userId, review.rating, review.message, now)
  }

  /** What makes the review insert fail: a store fault, or a restaurant id that does not exist. */
  function ReviewInsertError(restaurants: seq<RestaurantRow>, review: NewReview, fault: Fault): (e: Option<PgError>)
    ensures fault.Some? ==> e == fault
    ensures fault.None? ==> (e.None? <==> review.restaurantId in Keys(restaurants, RestaurantKey))
  {
    if fault.Some? then fault
    else if review.restaurantId !in Keys(restaurants, RestaurantKey) then Some(ForeignKeyError("reviews"))
    else None
  }

  /** `dishes.map(dish => ({ ...dish, review_id: reviewId }))`, with the ids the store assigns. */
  function TaggedDishes(taken: seq<DishRow>, dishes: seq<NewDish>, reviewId: Id): (rows: seq<DishRow>)
    ensures |rows| == |dishes|
    ensures forall k :: 0 <= k < |rows| ==>
      rows[k].reviewId == reviewId && rows[k].name == dishes[k].name && rows[k].price == dishes[k].price
    ensures forall k :: 0 <= k < |rows| ==> rows[k].id !in Keys(taken, DishKey)
    ensures UniqueKeys(rows, DishKey)
  {
    var ids := FreshIds(Keys(taken, DishKey), |dishes|);
    seq(|dishes|, k requires 0 <= k < |dishes| => DishRow(ids[k], reviewId, dishes[k].name, dishes[k].price))
  }

  lemma AddTaggedKeepsUnique(taken: seq<DishRow>, dishes: seq<NewDish>, reviewId: Id)
    requires UniqueKeys(taken, DishKey)
    ensures UniqueKeys(taken + TaggedDishes(taken, dishes, reviewId), DishKey)
  {
    UniqueKeysConcat(taken, TaggedDishes(taken, dishes, reviewId), DishKey);
  }

  function ApplyPatch(row: ReviewRow, patch: ReviewPatch): ReviewRow {
    row.(restaurantId := patch.restaurantId.GetOr(row.restaurantId),
         userId := patch.userId.GetOr(row.userId),
         rating := patch.rating.GetOr(row.rating),
         message := patch.message.GetOr(row.message))
  }

  /** `update(patch).eq("id", id)` on the reviews table. */
  function PatchReviews(rows: seq<ReviewRow>, id: Id, patch: ReviewPatch): (r: seq<ReviewRow>)
    ensures |r| == |rows|
    ensures forall i :: 0 <= i < |rows| && rows[i].id != id ==> r[i] == rows[i]
    ensures forall i :: 0 <= i < |rows| && rows[i].id == id ==> r[i] == ApplyPatch(rows[i], patch)
    ensures forall i :: 0 <= i < |rows| ==> r[i].id == rows[i].id
  {
    seq(|rows|, i requires 0 <= i < |rows| => if rows[i].id == id then ApplyPatch(rows[i], patch) else rows[i])
  }

  /** What makes the review update fail: a store fault, no row with that id (`.single()`), or a
      patched restaurant id that does not exist. */
  function ReviewUpdateError(restaurants: seq<RestaurantRow>, reviews: seq<ReviewRow>, id: Id, patch: ReviewPatch, fault: Fault)
    : (e: Option<PgError>)
    ensures fault.Some? ==> e == fault
    ensures fault.None? ==> (e.None? <==>
      Single(reviews, ReviewKey, id).Some? &&
      (patch.restaurantId.Some? ==> patch.restaurantId.value in Keys(restaurants, RestaurantKey)))
  {
    if fault.Some? then fault
    else if Single(reviews, ReviewKey, id).None? then Some(NoRowError)
    else if patch.restaurantId.Some? && patch.restaurantId.value !in Keys(restaurants, RestaurantKey) then
      Some(ForeignKeyError("reviews"))
    else None
  }

  /** An update that keeps the review at the same restaurant changes no restaurant's ratings but
      that one's. */
  lemma RatingsAfterPatch(reviews: seq<ReviewRow>, row: ReviewRow, patch: ReviewPatch)
    requires UniqueKeys(reviews, ReviewKey) && row in reviews
    requires patch.restaurantId.None? || patch.restaurantId.value == row.restaurantId
    ensures forall other :: other != row.restaurantId ==>
      Ratings(PatchReviews(reviews, row.id, patch), other) == Ratings(reviews, other)
  {
    var after := PatchReviews(reviews, row.id, patch);
    forall other | other != row.restaurantId
      ensures Ratings(after, other) == Ratings(reviews, other)
    {
      forall i | 0 <= i < |reviews|
        ensures reviews[i] == after[i] ||
          (ReviewRestaurant(reviews[i]) != other && ReviewRestaurant(after[i]) != other)
      {
        if reviews[i].id == row.id {
          var j :| 0 <= j < |reviews| && reviews[j] == row;
          assert i == j;
        }
      }
      MatchingPointwise(reviews, after, ReviewRestaurant, other);
    }
  }

  lemma PatchKeepsConsistent(restaurants: seq<RestaurantRow>, reviews: seq<ReviewRow>, row: ReviewRow, patch: ReviewPatch)
    requires AveragesConsistent(restaurants, reviews)
    requires UniqueKeys(reviews, ReviewKey) && row in reviews
    requires patch.restaurantId.None? || patch.restaurantId.value == row.restaurantId
    ensures var after := PatchReviews(reviews, row.id, patch);
      AveragesConsistent(SetAverage(restaurants, row.restaurantId, Average(Ratings(after, row.restaurantId))), after)
  {
    RatingsAfterPatch(reviews, row, patch);
    RecomputeConsistent(restaurants, reviews, PatchReviews(reviews, row.id, patch), row.restaurantId);
  }

  /** One row of `upsert` on the dishes' primary key: it replaces the row with that id, or is
      appended. */
  function UpsertDish(rows: seq<DishRow>, d: DishRow): (r: seq<DishRow>)
    ensures d in r
    ensures forall x :: x in r ==> x == d || x in rows
    ensures forall x :: x in rows && x.id != d.id ==> x in r
    ensures UniqueKeys(rows, DishKey) ==> UniqueKeys(r, DishKey)
  {
    if d.id in Keys(rows, DishKey) then
      var r := seq(|rows|, i requires 0 <= i < |rows| => if rows[i].id == d.id then d else rows[i]);
      assert Keys(r, DishKey) == Keys(rows, DishKey);
      var i :| 0 <= i < |rows| && Keys(rows, DishKey)[i] == d.id;
      assert r[i] == d;
      r
    else
      assert UniqueKeys(rows, DishKey) ==> UniqueKeys(rows + [d], DishKey) by {
        if UniqueKeys(rows, DishKey) {
          UniqueKeysAppend(rows, d, DishKey);
        }
      }
      rows + [d]
  }

  /** `upsert(dishes)` of a batch whose ids are distinct: every dish of the batch is stored, every
      other row stays, and nothing else appears. */
  function UpsertDishes(rows: seq<DishRow>, batch: seq<DishRow>): (r: seq<DishRow>)
    requires UniqueKeys(batch, DishKey)
    decreases |batch|
    ensures forall k :: 0 <= k < |batch| ==> batch[k] in r
    ensures forall x :: x in rows && x.id !in Keys(batch, DishKey) ==> x in r
    ensures forall x :: x in r ==> x in batch || x in rows
    ensures UniqueKeys(rows, DishKey) ==> UniqueKeys(r, DishKey)
  {
    if batch == [] then rows
    else
      UniqueKeysTail(batch, DishKey);
      var r := UpsertDishes(UpsertDish(rows, batch[0]), batch[1..]);
      assert batch[0].id !in Keys(batch[1..], DishKey) by {
        forall k | 0 <= k < |batch| - 1 ensures batch[1..][k].id != batch[0].id {
          assert batch[1..][k] in batch[1..];
        }
      }
      assert forall k :: 0 < k < |batch| ==> batch[k] == batch[1..][k - 1];
      assert forall x :: x in rows && x.id !in Keys(batch, DishKey) ==> x.id != batch[0].id && x.id !in Keys(batch[1..], DishKey) by {
        assert forall k :: 0 <= k < |batch| - 1 ==> Keys(batch[1..], DishKey)[k] == Keys(batch, DishKey)[k + 1];
        assert Keys(batch, DishKey)[0] == batch[0].id;
      }
      r
  }

  /** No two dishes of the batch share an id (the condition `UniqueKeys` states, computed). */
  predicate DistinctIds(batch: seq<DishRow>)
    ensures DistinctIds(batch) <==> UniqueKeys(batch, DishKey)
  {
    forall i, j :: 0 <= i < j < |batch| ==> batch[i].id != batch[j].id
  }

  const UpsertConflictCode: string := "21000"
  const UpsertConflictError: PgError := PgError(UpsertConflictCode, "ON CONFLICT DO UPDATE command cannot affect row a second time")

  /** What makes the dish upsert fail: a store fault, two dishes with one id, or a dish naming a
      review that does not exist. */
  function DishUpsertError(reviews: seq<ReviewRow>, batch: seq<DishRow>, fault: Fault): (e: Option<PgError>)
    ensures e.None? ==> UniqueKeys(batch, DishKey)
  {
    if fault.Some? then fault
    else if !DistinctIds(batch) then Some(UpsertConflictError)
    else if exists k :: 0 <= k < |batch| && batch[k].reviewId !in Keys(reviews, ReviewKey) then
      Some(ForeignKeyError("dishes"))
    else None
  }

  /** `updateRestaurantAverageRating`: read the restaurant's ratings, then write their average to
      its row. */
  method UpdateRestaurantAverageRating(db: Db, restaurantId: Id, readFault: Fault, writeFault: Fault)
    returns (out: Outcome<()>)
    requires db.Valid()
    modifies db`restaurants
    ensures db.Valid()
    ensures readFault.Some? ==> out == Threw(Postgrest(readFault.value)) && db.restaurants == old(db.restaurants)
    ensures readFault.None? && writeFault.Some? ==>
      out == Threw(Postgrest(writeFault.value)) && db.restaurants == old(db.restaurants)
    ensures readFault.None? && writeFault.None? ==>
      && out == Returned(())
      && db.restaurants == SetAverage(old(db.restaurants), restaurantId, Average(Ratings(db.reviews, restaurantId)))
    ensures Keys(db.restaurants, RestaurantKey) == Keys(old(db.restaurants), RestaurantKey)
  {
    if readFault.Some? {
      return Threw(Postgrest(readFault.value));
    }
    var averageRating := Average(Ratings(db.reviews, restaurantId));
    if writeFault.Some? {
      return Threw(Postgrest(writeFault.value));
    }
    db.restaurants := SetAverage(db.restaurants, restaurantId, averageRating);
    out := Returned(());
  }

  /** The common tail of the three review actions: recompute the restaurant's average, then
      `revalidatePath("/restaurants/" + restaurantId)`. */
  method RecomputeAndInvalidate(db: Db, restaurantId: Id, readFault: Fault, writeFault: Fault)
    returns (out: Outcome<()>)
    requires db.Valid()
    modifies db`restaurants, db`stale
    ensures db.Valid()
    ensures readFault.Some? || writeFault.Some? ==>
      && out == Threw(Postgrest(if readFault.Some? then readFault.value else writeFault.value))
      && db.restaurants == old(db.restaurants) && db.stale == old(db.stale)
    ensures readFault.None? && writeFault.None? ==>
      && out == Returned(())
      && db.restaurants == SetAverage(old(db.restaurants), restaurantId, Average(Ratings(db.reviews, restaurantId)))
      && db.stale == old(db.stale) + {RestaurantPath(restaurantId)}
    ensures Keys(db.restaurants, RestaurantKey) == Keys(old(db.restaurants), RestaurantKey)
    ensures old(ReviewsReferenced(db.restaurants, db.reviews)) ==> ReviewsReferenced(db.restaurants, db.reviews)
    ensures old(IdsIssued(db.restaurants, db.reviews, db.issued)) ==> IdsIssued(db.restaurants, db.reviews, db.issued)
  {
    out := UpdateRestaurantAverageRating(db, restaurantId, readFault, writeFault);
    if out.Returned? {
      db.Revalidate({RestaurantPath(restaurantId)});
    }
  }

  /** `createReview`: insert the review, then its dishes, then recompute the restaurant's average,
      then mark its page stale. A step that fails throws, keeping what the earlier steps stored. */
  method CreateReview(db: Db, review: NewReview, dishes: seq<NewDish>, now: Timestamp,
                      insertFault: Fault, dishesFault: Fault, readFault: Fault, writeFault: Fault)
    returns (out: Outcome<ReviewRow>)
    requires db.Valid()
    modifies db`reviews, db`dishes, db`restaurants, db`stale, db`issued
    ensures db.Valid()
    // A failed review insert throws before any other step.
    ensures var err := ReviewInsertError(old(db.restaurants), review, insertFault);
      err.Some? ==>
        && out == Threw(Postgrest(err.value))
        && db.reviews == old(db.reviews) && db.dishes == old(db.dishes)
        && db.restaurants == old(db.restaurants) && db.stale == old(db.stale) && db.issued == old(db.issued)
    ensures var row := InsertedReview(old(db.reviews), old(db.issued), review, now);
      ReviewInsertError(old(db.restaurants), review, insertFault).None? ==>
        && db.reviews == old(db.reviews) + [row] && db.issued == old(db.issued) + [row.id]
        // A failed dish insert throws with the review stored and the average not recomputed.
        && (dishes != [] && dishesFault.Some? ==>
              && out == Threw(Postgrest(dishesFault.value))
              && db.dishes == old(db.dishes) && db.restaurants == old(db.restaurants) && db.stale == old(db.stale))
        // Otherwise every dish is stored tagged with the new review's id; an empty list stores none.
        && (dishes == [] || dishesFault.None? ==>
              && db.dishes == old(db.dishes) + TaggedDishes(old(db.dishes), dishes, row.id)
              && (readFault.Some? || writeFault.Some? ==>
                    && out == Threw(Postgrest(if readFault.Some? then readFault.value else writeFault.value))
                    && db.restaurants == old(db.restaurants) && db.stale == old(db.stale))
              && (readFault.None? && writeFault.None? ==>
                    && out == Returned(row)
                    && db.restaurants == SetAverage(old(db.restaurants), review.restaurantId, Average(Ratings(db.reviews, review.restaurantId)))
                    && db.stale == old(db.stale) + {RestaurantPath(review.restaurantId)}))
    // A successful call keeps every average equal to the average of the current ratings.
    ensures out.Returned? && old(AveragesConsistent(db.restaurants, db.reviews)) ==>
      AveragesConsistent(db.restaurants, db.reviews)
    // Every call, however it ends, keeps the foreign key and the issued ids.
    ensures old(ReviewsReferenced(db.restaurants, db.reviews)) ==> ReviewsReferenced(db.restaurants, db.reviews)
    ensures old(IdsIssued(db.restaurants, db.reviews, db.issued)) ==> IdsIssued(db.restaurants, db.reviews, db.issued)
  {
    var err := ReviewInsertError(db.restaurants, review, insertFault);
    if err.Some? {
      return Threw(Postgrest(err.value));
    }
    out := InsertReviewAndDishes(db, review, dishes, now, dishesFault, readFault, writeFault);
  }

  /** `createReview` once the review insert is accepted: store the row, then its dishes, then
      recompute the average and mark the page stale. */
  method InsertReviewAndDishes(db: Db, review: NewReview, dishes: seq<NewDish>, now: Timestamp,
                               dishesFault: Fault, readFault: Fault, writeFault: Fault)
    returns (out: Outcome<ReviewRow>)
    requires db.Valid()
    requires review.restaurantId in Keys(db.restaurants, RestaurantKey)
    modifies db`reviews, db`dishes, db`restaurants, db`stale, db`issued
    ensures db.Valid()
    ensures var row := InsertedReview(old(db.reviews), old(db.issued), review, now);
        && db.reviews == old(db.reviews) + [row] && db.issued == old(db.issued) + [row.id]
        && (dishes != [] && dishesFault.Some? ==>
              && out == Threw(Postgrest(dishesFault.value))
              && db.dishes == old(db.dishes) && db.restaurants == old(db.restaurants) && db.stale == old(db.stale))
        && (dishes == [] || dishesFault.None? ==>
              && db.dishes == old(db.dishes) + TaggedDishes(old(db.dishes), dishes, row.id)
              && (readFault.Some? || writeFault.Some? ==>
                    && out == Threw(Postgrest(if readFault.Some? then readFault.value else writeFault.value))
                    && db.restaurants == old(db.restaurants) && db.stale == old(db.stale))
              && (readFault.None? && writeFault.None? ==>
                    && out == Returned(row)
                    && db.restaurants == SetAverage(old(db.restaurants), review.restaurantId, Average(Ratings(db.reviews, review.restaurantId)))
                    && db.stale == old(db.stale) + {RestaurantPath(review.restaurantId)}))
    ensures out.Returned? && old(AveragesConsistent(db.restaurants, db.reviews)) ==>
      AveragesConsistent(db.restaurants, db.reviews)
    ensures old(ReviewsReferenced(db.restaurants, db.reviews)) ==> ReviewsReferenced(db.restaurants, db.reviews)
    ensures old(IdsIssued(db.restaurants, db.reviews, db.issued)) ==> IdsIssued(db.restaurants, db.reviews, db.issued)
  {
    ghost var wasConsistent := AveragesConsistent(db.restaurants, db.reviews);
    var newReview := InsertedReview(db.reviews, db.issued, review, now);
    InsertReviewRow(db, newReview);

    var stored := StoreDishesAndRecompute(db, dishes, newReview.id, review.restaurantId, dishesFault, readFault, writeFault,
                                          old(db.reviews), newReview, wasConsistent);
    if stored.Threw? {
      return Threw(stored.thrown);
    }
    out := Returned(newReview);
  }


  /** The steps of `createReview` after the review row is stored: insert its dishes tagged with
      its id (no insert for an empty list), then recompute the restaurant's average and mark its
      page stale. `before` and `row` name the reviews table as it was before the insert and the
      stored row; `wasConsistent` says that the averages matched `before`. */
  method StoreDishesAndRecompute(db: Db, dishes: seq<NewDish>, reviewId: Id, restaurantId: Id,
                                 dishesFault: Fault, readFault: Fault, writeFault: Fault,
                                 ghost before: seq<ReviewRow>, ghost row: ReviewRow, ghost wasConsistent: bool)
    returns (out: Outcome<()>)
    requires db.Valid()
    requires db.reviews == before + [row] && row.restaurantId == restaurantId
    requires wasConsistent ==> AveragesConsistent(db.restaurants, before)
    modifies db`dishes, db`restaurants, db`stale
    ensures db.Valid()
    ensures dishes != [] && dishesFault.Some? ==>
      && out == Threw(Postgrest(dishesFault.value))
      && db.dishes == old(db.dishes) && db.restaurants == old(db.restaurants) && db.stale == old(db.stale)
    ensures dishes == [] || dishesFault.None? ==>
      && db.dishes == old(db.dishes) + TaggedDishes(old(db.dishes), dishes, reviewId)
      && (readFault.Some? || writeFault.Some? ==>
            && out == Threw(Postgrest(if readFault.Some? then readFault.value else writeFault.value))
            && db.restaurants == old(db.restaurants) && db.stale == old(db.stale))
      && (readFault.None? && writeFault.None? ==>
            && out == Returned(())
            && db.restaurants == SetAverage(old(db.restaurants), restaurantId, Average(Ratings(db.reviews, restaurantId)))
            && db.stale == old(db.stale) + {RestaurantPath(restaurantId)})
    ensures old(ReviewsReferenced(db.restaurants, db.reviews)) ==> ReviewsReferenced(db.restaurants, db.reviews)
    ensures old(IdsIssued(db.restaurants, db.reviews, db.issued)) ==> IdsIssued(db.restaurants, db.reviews, db.issued)
    ensures out.Returned? && wasConsistent ==> AveragesConsistent(db.restaurants, db.reviews)
  {
    if |dishes| > 0 && dishesFault.Some? {
      return Threw(Postgrest(dishesFault.value));
    }
    InsertDishRows(db, dishes, reviewId);
    out := RecomputeAndInvalidate(db, restaurantId, readFault, writeFault);
    if out.Returned? && wasConsistent {
      InsertKeepsConsistent(old(db.restaurants), before, row);
    }
  }

  /** The accepted insert of a review row under a fresh id, for a stored restaurant. */
  method InsertReviewRow(db: Db, row: ReviewRow)
    requires db.Valid() && row.id !in Keys(db.reviews, ReviewKey)
    requires row.restaurantId in Keys(db.restaurants, RestaurantKey)
    modifies db`reviews, db`issued
    ensures db.Valid() && db.reviews == old(db.reviews) + [row] && db.issued == old(db.issued) + [row.id]
    ensures old(ReviewsReferenced(db.restaurants, db.reviews)) ==> ReviewsReferenced(db.restaurants, db.reviews)
    ensures old(IdsIssued(db.restaurants, db.reviews, db.issued)) ==> IdsIssued(db.restaurants, db.reviews, db.issued)
  {
    UniqueKeysAppend(db.reviews, row, ReviewKey);
    db.reviews := db.reviews + [row];
    db.issued := db.issued + [row.id];
  }

  /** The accepted insert of a review's dishes, each tagged with its id. */
  method InsertDishRows(db: Db, dishes: seq<NewDish>, reviewId: Id)
    requires db.Valid()
    modifies db`dishes
    ensures db.Valid() && db.dishes == old(db.dishes) + TaggedDishes(old(db.dishes), dishes, reviewId)
  {
    AddTaggedKeepsUnique(db.dishes, dishes, reviewId);
    db.dishes := db.dishes + TaggedDishes(db.dishes, dishes, reviewId);
  }

  /** `update(review).eq("id", id)` on the reviews table. */
  method PatchReviewRow(db: Db, id: Id, patch: ReviewPatch)
    requires db.Valid()
    requires patch.restaurantId.Some? ==> patch.restaurantId.value in Keys(db.restaurants, RestaurantKey)
    modifies db`reviews
    ensures db.Valid()
    ensures db.reviews == PatchReviews(old(db.reviews), id, patch)
    ensures old(ReviewsReferenced(db.restaurants, db.reviews)) ==> ReviewsReferenced(db.restaurants, db.reviews)
    ensures old(IdsIssued(db.restaurants, db.reviews, db.issued)) ==> IdsIssued(db.restaurants, db.reviews, db.issued)
  {
    PatchedRestaurantIds(db.reviews, id, patch);
    db.reviews := PatchReviews(db.reviews, id, patch);
  }

  /** After a patch every review names the restaurant it named before or the patched one. */
  lemma PatchedRestaurantIds(rows: seq<ReviewRow>, id: Id, patch: ReviewPatch)
    ensures forall r :: r in PatchReviews(rows, id, patch) ==>
      (exists q :: q in rows && q.restaurantId == r.restaurantId) || Some(r.restaurantId) == patch.restaurantId
  {
    var after := PatchReviews(rows, id, patch);
    forall r | r in after
      ensures (exists q :: q in rows && q.restaurantId == r.restaurantId) || Some(r.restaurantId) == patch.restaurantId
    {
      var i :| 0 <= i < |after| && after[i] == r;
      assert rows[i] in rows;
    }
  }

  /** `upsert(dishes)` on the dishes table: all rows or none. */
  method UpsertDishRows(db: Db, dishes: seq<DishRow>, fault: Fault) returns (out: Outcome<()>)
    requires db.Valid()
    modifies db`dishes
    ensures db.Valid()
    ensures var err := DishUpsertError(db.reviews, dishes, fault);
      && (err.Some? ==> out == Threw(Postgrest(err.value)) && db.dishes == old(db.dishes))
      && (err.None? ==> out == Returned(()) && db.dishes == UpsertDishes(old(db.dishes), dishes))
  {
    var err := DishUpsertError(db.reviews, dishes, fault);
    if err.Some? {
      return Threw(Postgrest(err.value));
    }
    db.dishes := UpsertDishes(db.dishes, dishes);
    out := Returned(());
  }

  /** The steps of `updateReview` after the row is patched: upsert the dishes when there are any,
      then recompute the average of the given restaurant and mark its page stale. */
  method UpsertDishesAndRecompute(db: Db, dishes: seq<DishRow>, restaurantId: Id,
                                  dishesFault: Fault, readFault: Fault, writeFault: Fault)
    returns (out: Outcome<()>)
    requires db.Valid()
    modifies db`dishes, db`restaurants, db`stale
    ensures db.Valid()
    ensures dishes == [] ==> db.dishes == old(db.dishes)
    ensures var err := DishUpsertError(db.reviews, dishes, dishesFault);
      dishes != [] ==>
        && (err.Some? ==>
              && out == Threw(Postgrest(err.value))
              && db.dishes == old(db.dishes) && db.restaurants == old(db.restaurants) && db.stale == old(db.stale))
        && (err.None? ==> db.dishes == UpsertDishes(old(db.dishes), dishes))
    ensures dishes == [] || DishUpsertError(db.reviews, dishes, dishesFault).None? ==>
      && (readFault.Some? || writeFault.Some? ==>
            && out == Threw(Postgrest(if readFault.Some? then readFault.value else writeFault.value))
            && db.restaurants == old(db.restaurants) && db.stale == old(db.stale))
      && (readFault.None? && writeFault.None? ==>
            && out == Returned(())
            && db.restaurants == SetAverage(old(db.restaurants), restaurantId, Average(Ratings(db.reviews, restaurantId)))
            && db.stale == old(db.stale) + {RestaurantPath(restaurantId)})
    ensures old(ReviewsReferenced(db.restaurants, db.reviews)) ==> ReviewsReferenced(db.restaurants, db.reviews)
    ensures old(IdsIssued(db.restaurants, db.reviews, db.issued)) ==> IdsIssued(db.restaurants, db.reviews, db.issued)
  {
    if |dishes| > 0 {
      var upserted := UpsertDishRows(db, dishes, dishesFault);
      if upserted.Threw? {
        return Threw(upserted.thrown);
      }
    }
    out := RecomputeAndInvalidate(db, restaurantId, readFault, writeFault);
  }

  /** `updateReview`: patch the row with that id, upsert the dishes when there are any, then
      recompute the average of the restaurant the row now belongs to and mark its page stale. */
  method UpdateReview(db: Db, id: Id, patch: ReviewPatch, dishes: seq<DishRow>,
                      updateFault: Fault, dishesFault: Fault, readFault: Fault, writeFault: Fault)
    returns (out: Outcome<ReviewRow>)
    requires db.Valid()
    modifies db`reviews, db`dishes, db`restaurants, db`stale
    ensures db.Valid()
    ensures var err := ReviewUpdateError(old(db.restaurants), old(db.reviews), id, patch, updateFault);
      err.Some? ==>
        && out == Threw(Postgrest(err.value))
        && db.reviews == old(db.reviews) && db.dishes == old(db.dishes)
        && db.restaurants == old(db.restaurants) && db.stale == old(db.stale)
    ensures ReviewUpdateError(old(db.restaurants), old(db.reviews), id, patch, updateFault).None? ==>
      db.reviews == PatchReviews(old(db.reviews), id, patch)
    // There is no upsert at all for an empty list.
    ensures dishes == [] ==> db.dishes == old(db.dishes)
    ensures var err := DishUpsertError(PatchReviews(old(db.reviews), id, patch), dishes, dishesFault);
      ReviewUpdateError(old(db.restaurants), old(db.reviews), id, patch, updateFault).None? && dishes != [] ==>
        && (err.Some? ==>
              && out == Threw(Postgrest(err.value))
              && db.dishes == old(db.dishes) && db.restaurants == old(db.restaurants) && db.stale == old(db.stale))
        && (err.None? ==> db.dishes == UpsertDishes(old(db.dishes), dishes))
    // The average is recomputed, and the page invalidated, for the restaurant of the updated row.
    ensures ReviewUpdateError(old(db.restaurants), old(db.reviews), id, patch, updateFault).None? &&
            (dishes == [] || DishUpsertError(PatchReviews(old(db.reviews), id, patch), dishes, dishesFault).None?) ==>
      var row := ApplyPatch(Single(old(db.reviews), ReviewKey, id).value, patch);
      && (readFault.Some? || writeFault.Some? ==>
            && out == Threw(Postgrest(if readFault.Some? then readFault.value else writeFault.value))
            && db.restaurants == old(db.restaurants) && db.stale == old(db.stale))
      && (readFault.None? && writeFault.None? ==>
            && out == Returned(row)
            && db.restaurants == SetAverage(old(db.restaurants), row.restaurantId, Average(Ratings(db.reviews, row.restaurantId)))
            && db.stale == old(db.stale) + {RestaurantPath(row.restaurantId)})
    // A successful update that keeps the review at its restaurant keeps every average consistent.
    ensures var found := Single(old(db.reviews), ReviewKey, id);
      out.Returned? && found.Some? &&
      (patch.restaurantId.None? || patch.restaurantId.value == found.value.restaurantId) &&
      old(AveragesConsistent(db.restaurants, db.reviews)) ==>
        AveragesConsistent(db.restaurants, db.reviews)
    // Every call, however it ends, keeps the foreign key and the issued ids.
    ensures old(ReviewsReferenced(db.restaurants, db.reviews)) ==> ReviewsReferenced(db.restaurants, db.reviews)
    ensures old(IdsIssued(db.restaurants, db.reviews, db.issued)) ==> IdsIssued(db.restaurants, db.reviews, db.issued)
  {
    var err := ReviewUpdateError(db.restaurants, db.reviews, id, patch, updateFault);
    if err.Some? {
      return Threw(Postgrest(err.value));
    }
    var found := Single(db.reviews, ReviewKey, id).value;
    var updatedReview := ApplyPatch(found, patch);
    PatchReviewRow(db, id, patch);

    var stored := UpsertDishesAndRecompute(db, dishes, updatedReview.restaurantId, dishesFault, readFault, writeFault);
    if stored.Threw? {
      return Threw(stored.thrown);
    }
    if (patch.restaurantId.None? || patch.restaurantId.value == found.restaurantId) &&
       old(AveragesConsistent(db.restaurants, db.reviews)) {
      PatchKeepsConsistent(old(db.restaurants), old(db.reviews), found, patch);
    }
    out := Returned(updatedReview);
  }

  /** `deleteReview`: read the review's restaurant id, delete the review, then recompute that
      restaurant's average and mark its page stale. */
  method DeleteReview(db: Db, id: Id, readFault: Fault, deleteFault: Fault, ratingsFault: Fault, writeFault: Fault)
    returns (out: Outcome<()>)
    requires db.Valid()
    modifies db`reviews, db`restaurants, db`stale
    ensures db.Valid()
    // A failed read, a missing review or a failed delete throws with nothing deleted.
    ensures var found := Single(old(db.reviews), ReviewKey, id);
      readFault.Some? || found.None? || deleteFault.Some? ==>
        && out == Threw(Postgrest(if readFault.Some? then readFault.value
                                  else if found.None? then NoRowError else deleteFault.value))
        && db.reviews == old(db.reviews) && db.restaurants == old(db.restaurants) && db.stale == old(db.stale)
    ensures var found := Single(old(db.reviews), ReviewKey, id);
      readFault.None? && found.Some? && deleteFault.None? ==>
        var restaurantId := found.value.restaurantId;
        && db.reviews == FilterOut(old(db.reviews), ReviewKey, id)
        && (ratingsFault.Some? || writeFault.Some? ==>
              && out == Threw(Postgrest(if ratingsFault.Some? then ratingsFault.value else writeFault.value))
              && db.restaurants == old(db.restaurants) && db.stale == old(db.stale))
        && (ratingsFault.None? && writeFault.None? ==>
              && out == Returned(())
              && db.restaurants == SetAverage(old(db.restaurants), restaurantId, Average(Ratings(db.reviews, restaurantId)))
              && db.stale == old(db.stale) + {RestaurantPath(restaurantId)})
    // A successful delete keeps every average consistent.
    ensures out.Returned? && old(AveragesConsistent(db.restaurants, db.reviews)) ==>
      AveragesConsistent(db.restaurants, db.reviews)
    // Every call, however it ends, keeps the foreign key and the issued ids.
    ensures old(ReviewsReferenced(db.restaurants, db.reviews)) ==> ReviewsReferenced(db.restaurants, db.reviews)
    ensures old(IdsIssued(db.restaurants, db.reviews, db.issued)) ==> IdsIssued(db.restaurants, db.reviews, db.issued)
  {
    if readFault.Some? {
      return Threw(Postgrest(readFault.value));
    }
    var review := Single(db.reviews, ReviewKey, id);
    if review.None? {
      return Threw(Postgrest(NoRowError));
    }
    if deleteFault.Some? {
      return Threw(Postgrest(deleteFault.value));
    }
    var restaurantId := review.value.restaurantId;
    DropReviewRow(db, id);

    var updated := RecomputeAndInvalidate(db, restaurantId, ratingsFault, writeFault);
    if updated.Threw? {
      return Threw(updated.thrown);
    }
    if old(AveragesConsistent(db.restaurants, db.reviews)) {
      DeleteKeepsConsistent(old(db.restaurants), old(db.reviews), review.value);
    }
    out := Returned(());
  }

  /** `delete().eq("id", id)` on the reviews table. */
  method DropReviewRow(db: Db, id: Id)
    requires db.Valid()
    modifies db`reviews
    ensures db.Valid() && db.reviews == FilterOut(old(db.reviews), ReviewKey, id)
    ensures old(ReviewsReferenced(db.restaurants, db.reviews)) ==> ReviewsReferenced(db.restaurants, db.reviews)
    ensures old(IdsIssued(db.restaurants, db.reviews, db.issued)) ==> IdsIssued(db.restaurants, db.reviews, db.issued)
  {
    FilterOutKeepsUnique(db.reviews, ReviewKey, id, ReviewKey);
    db.reviews := FilterOut(db.reviews, ReviewKey, id);
  }

  // ---------------------------------------------------------------------------------------------
  // Reading reviews

  /** `.eq("restaurant_id", restaurantId).order("created_at", { ascending: false })`: exactly the
      restaurant's reviews, each once, newest first. */
  function ReviewsOf(reviews: seq<ReviewRow>, restaurantId: Id): (rows: seq<ReviewRow>)
    ensures |rows| == |Matching(reviews, ReviewRestaurant, restaurantId)|
    ensures forall x :: x in rows <==> x in reviews && x.restaurantId == restaurantId
    ensures forall i, j :: 0 <= i < j < |rows| ==> rows[i].createdAt >= rows[j].createdAt
  {
    var m := Matching(reviews, ReviewRestaurant, restaurantId);
    SortDescSpec(m, ReviewCreated);
    SortDescMembers(m, ReviewCreated);
    SortDesc(m, ReviewCreated)
  }

  /** A review row with its embedded dishes and photo URLs. */
  datatype ReviewDetails = ReviewDetails(review: ReviewRow, dishes: seq<DishRow>, photoUrls: seq<string>)

  /** The embedded `dishes (*)` and `photos (url)` of each review: the dishes whose `review_id`
      is the review's id, and the URLs of the photos whose `review_id` is. */
  function WithRelations(rows: seq<ReviewRow>, dishes: seq<DishRow>, photos: seq<PhotoRow>): (r: seq<ReviewDetails>)
    ensures |r| == |rows|
    ensures forall k :: 0 <= k < |rows| ==> r[k].review == rows[k]
    ensures forall k, d :: 0 <= k < |rows| ==> (d in r[k].dishes <==> d in dishes && d.reviewId == rows[k].id)
    ensures forall k, u :: 0 <= k < |rows| ==>
      (u in r[k].photoUrls <==> exists p :: p in photos && p.reviewId == Some(rows[k].id) && p.url == u)
  {
    seq(|rows|, k requires 0 <= k < |rows| =>
      ReviewDetails(rows[k], Matching(dishes, DishReview, rows[k].id), ReviewPhotos(photos, rows[k].id)))
  }

  /** The review rows of a list of details, in order. */
  function DetailRows(list: seq<ReviewDetails>): (rows: seq<ReviewRow>)
    ensures |rows| == |list| && forall k :: 0 <= k < |list| ==> rows[k] == list[k].review
  {
    seq(|list|, k requires 0 <= k < |list| => list[k].review)
  }

  /** `getReviewsByRestaurantId`: the restaurant's reviews, newest first, with their dishes and
      photo URLs; a store error is thrown. */
  function GetReviewsByRestaurantId(reviews: seq<ReviewRow>, dishes: seq<DishRow>, photos: seq<PhotoRow>,
                                    restaurantId: Id, fault: Fault): (out: Outcome<seq<ReviewDetails>>)
    ensures fault.Some? ==> out == Threw(Postgrest(fault.value))
    ensures fault.None? ==> out.Returned?
    ensures fault.None? ==>
      var list := out.value;
      && |list| == |Matching(reviews, ReviewRestaurant, restaurantId)|
      && (forall x :: x in DetailRows(list) <==> x in reviews && x.restaurantId == restaurantId)
      && (forall i, j :: 0 <= i < j < |list| ==> list[i].review.createdAt >= list[j].review.createdAt)
      && (forall k, d :: 0 <= k < |list| ==> (d in list[k].dishes <==> d in dishes && d.reviewId == list[k].review.id))
      && (forall k, u :: 0 <= k < |list| ==>
            (u in list[k].photoUrls <==> exists p :: p in photos && p.reviewId == Some(list[k].review.id) && p.url == u))
  {
    if fault.Some? then Threw(Postgrest(fault.value))
    else
      var rows := ReviewsOf(reviews, restaurantId);
      var list := WithRelations(rows, dishes, photos);
      assert DetailRows(list) == rows;
      Returned(list)
  }
}
