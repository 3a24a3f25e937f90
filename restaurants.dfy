/** The restaurant actions (lib/actions/restaurants.ts): the newest-first list, the detail view
    with nested reviews, and create, update and delete. */
module Restaurants {
  import opened Wrappers
  import opened Seqs
  import opened Sorting
  import opened Errors
  import opened Store
  import opened Types
  import opened Reviews

  const ListFailedMessage: string := "Nem sikerült lekérni az éttermeket"
  const FetchFailedMessage: string := "Nem sikerült lekérni az éttermet"
  const CreateFailedMessage: string := "Nem sikerült létrehozni az éttermet"
  const UpdateFailedMessage: string := "Nem sikerült frissíteni az éttermet"
  const DeleteFailedMessage: string := "Nem sikerült törölni az éttermet"

  function RestaurantCreated(r: RestaurantRow): real { r.createdAt as real }

  // ---------------------------------------------------------------------------------------------
  // Reading

  /** The summary shape of each row, in the order given. */
  function Summaries(rows: seq<RestaurantRow>, photos: seq<PhotoRow>): (r: seq<Restaurant>)
    ensures |r| == |rows|
    ensures forall k :: 0 <= k < |rows| ==> r[k] == ToRestaurant(rows[k], RestaurantPhotos(photos, rows[k].id))
  {
    seq(|rows|, k requires 0 <= k < |rows| => ToRestaurant(rows[k], RestaurantPhotos(photos, rows[k].id)))
  }

  /** `getRestaurants`: every restaurant once, newest first, as its summary; a store error throws
      (it is not turned into an empty list). */
  function GetRestaurants(restaurants: seq<RestaurantRow>, photos: seq<PhotoRow>, fault: Fault)
    : (out: Outcome<seq<Restaurant>>)
    ensures fault.Some? ==> out == Threw(Error(ListFailedMessage))
    ensures fault.None? ==> out.Returned? && |out.value| == |restaurants|
    ensures fault.None? ==> forall i, j :: 0 <= i < j < |out.value| ==> out.value[i].createdAt >= out.value[j].createdAt
    ensures fault.None? ==> forall k :: 0 <= k < |out.value| ==>
      exists row :: row in restaurants && out.value[k] == ToRestaurant(row, RestaurantPhotos(photos, row.id))
    ensures fault.None? ==> forall row :: row in restaurants ==>
      exists k :: 0 <= k < |out.value| && out.value[k] == ToRestaurant(row, RestaurantPhotos(photos, row.id))
  {
    if fault.Some? then Threw(Error(ListFailedMessage))
    else
      var sorted := SortDesc(restaurants, RestaurantCreated);
      SortDescSpec(restaurants, RestaurantCreated);
      SortDescMembers(restaurants, RestaurantCreated);
      var list := Summaries(sorted, photos);
      assert forall k :: 0 <= k < |list| ==> list[k].createdAt == sorted[k].createdAt;
      assert forall row :: row in restaurants ==> list[IndexIn(sorted, row)] == ToRestaurant(row, RestaurantPhotos(photos, row.id));
      Returned(list)
  }

  /** A dish as nested in the detail view: its `reviewId` is the containing review's id. */
  function NestedDish(d: DishRow, reviewId: Id): Dish {
    Dish(d.id, reviewId, d.name, d.price)
  }

  /** The embedded `dishes (id, name, price)` of a review, tagged with the review's id. */
  function NestedDishes(dishes: seq<DishRow>, reviewId: Id): (r: seq<Dish>)
    ensures |r| == |Matching(dishes, DishReview, reviewId)|
    ensures forall k :: 0 <= k < |r| ==> r[k].reviewId == reviewId
    ensures forall x :: x in r <==> exists d :: d in dishes && d.reviewId == reviewId && x == NestedDish(d, reviewId)
  {
    var m := Matching(dishes, DishReview, reviewId);
    var r := seq(|m|, k requires 0 <= k < |m| => NestedDish(m[k], reviewId));
    assert forall x :: x in r ==> exists d :: d in dishes && d.reviewId == reviewId && x == NestedDish(d, reviewId) by {
      forall x | x in r ensures exists d :: d in dishes && d.reviewId == reviewId && x == NestedDish(d, reviewId) {
        var k :| 0 <= k < |r| && r[k] == x;
        assert m[k] in m && DishReview(m[k]) == m[k].reviewId;
      }
    }
    assert forall d :: d in dishes && d.reviewId == reviewId ==> NestedDish(d, reviewId) in r by {
      forall d | d in dishes && d.reviewId == reviewId ensures NestedDish(d, reviewId) in r {
        assert DishReview(d) == reviewId && d in m;
        assert r[IndexIn(m, d)] == NestedDish(d, reviewId);
      }
    }
    r
  }

  /** A review as nested in the detail view: `restaurantId` is the requested id. */
  function NestedReview(r: ReviewRow, restaurantId: Id, dishes: seq<DishRow>, photos: seq<PhotoRow>): (v: Review)
    ensures v.id == r.id && v.userId == r.userId && v.rating == r.rating
    ensures v.message == r.message && v.createdAt == r.createdAt && v.restaurantId == restaurantId
    ensures v.dishes == NestedDishes(dishes, r.id) && v.photos == ReviewPhotos(photos, r.id)
  {
    Review(r.id, restaurantId, r.userId, r.rating, r.message, NestedDishes(dishes, r.id), ReviewPhotos(photos, r.id), r.createdAt)
  }

  /** The detail shape of a restaurant row: the summary with the reviews whose `restaurant_id` is
      the requested id, in table order. */
  function Detail(row: RestaurantRow, id: Id, reviews: seq<ReviewRow>, dishes: seq<DishRow>, photos: seq<PhotoRow>)
    : (r: Restaurant)
    ensures r == ToRestaurant(row, RestaurantPhotos(photos, row.id)).(reviews := r.reviews)
    ensures r.reviews.Some?
    ensures var m := Matching(reviews, ReviewRestaurant, id);
      && |r.reviews.value| == |m|
      && forall k :: 0 <= k < |m| ==> r.reviews.value[k] == NestedReview(m[k], id, dishes, photos)
  {
    var m := Matching(reviews, ReviewRestaurant, id);
    var nested := seq(|m|, k requires 0 <= k < |m| => NestedReview(m[k], id, dishes, photos));
    ToRestaurant(row, RestaurantPhotos(photos, row.id)).(reviews := Some(nested))
  }

  /** `getRestaurantById`: `.single()` reports PGRST116 when no row (or more than one) has the id,
      which answers `null`; any other error throws. */
  function GetRestaurantById(restaurants: seq<RestaurantRow>, reviews: seq<ReviewRow>, dishes: seq<DishRow>,
                             photos: seq<PhotoRow>, id: Id, fault: Fault): (out: Outcome<Option<Restaurant>>)
    ensures fault.Some? && fault.value.code == NoSingleRow ==> out == Returned(None)
    ensures fault.Some? && fault.value.code != NoSingleRow ==> out == Threw(Error(FetchFailedMessage))
    ensures fault.None? ==> out.Returned?
    ensures fault.None? && out.value.Some? ==>
      var r := out.value.value;
      && r.id == id && r.reviews.Some?
      && (exists row :: row in restaurants && row.id == id && r == Detail(row, id, reviews, dishes, photos))
      && (forall v :: v in r.reviews.value ==> v.restaurantId == id && forall d :: d in v.dishes ==> d.reviewId == v.id)
  {
    if fault.Some? then
      if fault.value.code == NoSingleRow then Returned(None) else Threw(Error(FetchFailedMessage))
    else
      var row := Single(restaurants, RestaurantKey, id);
      if row.None? then Returned(None)
      else
        var r := Detail(row.value, id, reviews, dishes, photos);
        var m := Matching(reviews, ReviewRestaurant, id);
        assert forall v :: v in r.reviews.value ==> v == NestedReview(m[IndexIn(r.reviews.value, v)], id, dishes, photos);
        Returned(Some(r))
  }

  /** With the primary key in force, the detail view is `null` exactly when no row has the id. */
  lemma GetRestaurantByIdFound(restaurants: seq<RestaurantRow>, reviews: seq<ReviewRow>, dishes: seq<DishRow>,
                               photos: seq<PhotoRow>, id: Id)
    requires UniqueKeys(restaurants, RestaurantKey)
    ensures GetRestaurantById(restaurants, reviews, dishes, photos, id, None).value.None?
        <==> id !in Keys(restaurants, RestaurantKey)
  {
    SingleUnique(restaurants, RestaurantKey, id);
  }

  /** The nested reviews are exactly the restaurant's reviews: each row once, with its rating. */
  lemma DetailReviewsAreRatings(row: RestaurantRow, reviews: seq<ReviewRow>, dishes: seq<DishRow>, photos: seq<PhotoRow>)
    ensures var nested := Detail(row, row.id, reviews, dishes, photos).reviews.value;
      && |nested| == |Ratings(reviews, row.id)|
      && forall k :: 0 <= k < |nested| ==> nested[k].rating == Ratings(reviews, row.id)[k]
  {
  }

  // ---------------------------------------------------------------------------------------------
  // Writing

  /** The row `insert({ name, address, price_tier, user_id })` stores: no average yet, under an
      id the store has never handed out. */
  function NewRestaurant(restaurants: seq<RestaurantRow>, issued: seq<Id>, name: string, address: string,
                         priceTier: int, userId: Id, now: Timestamp): (row: RestaurantRow)
    ensures row.id !in Keys(restaurants, RestaurantKey) && row.id !in issued && row.averageRating.None?
    ensures row.name == name && row.address == address && row.priceTier == priceTier
    ensures row.userId == userId && row.createdAt == now
  {
    RestaurantRow(FreshId(Keys(restaurants, RestaurantKey) + issued), name, address, priceTier, None, now, userId)
  }

  /** A new restaurant, under an id never handed out, has no reviews, so its missing average is
      the right one. */
  lemma {:induction false} CreateKeepsConsistent(restaurants: seq<RestaurantRow>, reviews: seq<ReviewRow>,
                                                 issued: seq<Id>, row: RestaurantRow)
    requires AveragesConsistent(restaurants, reviews) && IdsIssued(restaurants, reviews, issued)
    requires row.id !in issued && row.averageRating.None?
    ensures AveragesConsistent(restaurants + [row], reviews)
    ensures IdsIssued(restaurants + [row], reviews, issued + [row.id])
  {
    AppendKeepsAverages(restaurants, reviews, issued, row);
    KeysAfterAppend(restaurants, row);
  }

  lemma {:induction false} AppendKeepsAverages(restaurants: seq<RestaurantRow>, reviews: seq<ReviewRow>,
                                               issued: seq<Id>, row: RestaurantRow)
    requires AveragesConsistent(restaurants, reviews) && IdsIssued(restaurants, reviews, issued)
    requires row.id !in issued && row.averageRating.None?
    ensures AveragesConsistent(restaurants + [row], reviews)
  {
    var after := restaurants + [row];
    forall i | 0 <= i < |after| ensures after[i].averageRating == Average(Ratings(reviews, after[i].id)) {
      if i < |restaurants| {
        assert after[i] == restaurants[i];
      } else {
        NoReviewsOfNewRestaurant(reviews, issued, row.id);
      }
    }
  }

  /** The reviews of an identifier never handed out: none. */
  lemma NoReviewsOfNewRestaurant(reviews: seq<ReviewRow>, issued: seq<Id>, id: Id)
    requires forall r :: r in reviews ==> r.restaurantId in issued
    requires id !in issued
    ensures Ratings(reviews, id) == []
  {
    assert forall i :: 0 <= i < |reviews| ==> reviews[i] in reviews;
    MatchingNone(reviews, ReviewRestaurant, id);
  }

  /** The ids of the restaurants after an append: those before and the new one. */
  lemma KeysAfterAppend(restaurants: seq<RestaurantRow>, row: RestaurantRow)
    ensures Keys(restaurants + [row], RestaurantKey) == Keys(restaurants, RestaurantKey) + [row.id]
  {
  }

  /** The ids of the restaurants after a delete are among those before. */
  lemma KeysAfterDelete(restaurants: seq<RestaurantRow>, id: Id)
    ensures forall x :: x in Keys(FilterOut(restaurants, RestaurantKey, id), RestaurantKey) ==>
      x in Keys(restaurants, RestaurantKey)
  {
    var after := FilterOut(restaurants, RestaurantKey, id);
    forall x | x in Keys(after, RestaurantKey) ensures x in Keys(restaurants, RestaurantKey) {
      var i :| 0 <= i < |after| && Keys(after, RestaurantKey)[i] == x;
      assert after[i] in restaurants;
      var j := IndexIn(restaurants, after[i]);
      assert Keys(restaurants, RestaurantKey)[j] == x;
    }
  }

  lemma {:induction false} AppendKeepsReferences(restaurants: seq<RestaurantRow>, reviews: seq<ReviewRow>, row: RestaurantRow)
    requires ReviewsReferenced(restaurants, reviews)
    ensures ReviewsReferenced(restaurants + [row], reviews)
  {
    KeysAfterAppend(restaurants, row);
  }

  /** `createRestaurant`: insert the row, mark `/` stale and return the new id; a store error
      throws. */
  method CreateRestaurant(db: Db, name: string, address: string, priceTier: int, userId: Id,
                          now: Timestamp, fault: Fault) returns (out: Outcome<Id>)
    requires db.Valid()
    modifies db`restaurants, db`stale, db`issued
    ensures db.Valid()
    ensures fault.Some? ==>
      && out == Threw(Error(CreateFailedMessage))
      && db.restaurants == old(db.restaurants) && db.stale == old(db.stale) && db.issued == old(db.issued)
    ensures var row := NewRestaurant(old(db.restaurants), old(db.issued), name, address, priceTier, userId, now);
      fault.None? ==>
        && out == Returned(row.id)
        && db.restaurants == old(db.restaurants) + [row]
        && db.issued == old(db.issued) + [row.id]
        && db.stale == old(db.stale) + {HomePath}
    ensures old(AveragesConsistent(db.restaurants, db.reviews) && IdsIssued(db.restaurants, db.reviews, db.issued)) ==>
      AveragesConsistent(db.restaurants, db.reviews) && IdsIssued(db.restaurants, db.reviews, db.issued)
    ensures old(ReviewsReferenced(db.restaurants, db.reviews)) ==> ReviewsReferenced(db.restaurants, db.reviews)
  {
    if fault.Some? {
      return Threw(Error(CreateFailedMessage));
    }
    var row := NewRestaurant(db.restaurants, db.issued, name, address, priceTier, userId, now);
    AppendRestaurant(db, row);
    db.Revalidate({HomePath});
    out := Returned(row.id);
  }

  /** The accepted insert of a new restaurant row, which has no average yet, under an id never
      handed out. */
  method AppendRestaurant(db: Db, row: RestaurantRow)
    requires db.Valid() && row.id !in Keys(db.restaurants, RestaurantKey) && row.id !in db.issued
    requires row.averageRating.None?
    modifies db`restaurants, db`issued
    ensures db.Valid() && db.restaurants == old(db.restaurants) + [row] && db.issued == old(db.issued) + [row.id]
    ensures old(AveragesConsistent(db.restaurants, db.reviews) && IdsIssued(db.restaurants, db.reviews, db.issued)) ==>
      AveragesConsistent(db.restaurants, db.reviews) && IdsIssued(db.restaurants, db.reviews, db.issued)
    ensures old(ReviewsReferenced(db.restaurants, db.reviews)) ==> ReviewsReferenced(db.restaurants, db.reviews)
  {
    UniqueKeysAppend(db.restaurants, row, RestaurantKey);
    if AveragesConsistent(db.restaurants, db.reviews) && IdsIssued(db.restaurants, db.reviews, db.issued) {
      CreateKeepsConsistent(db.restaurants, db.reviews, db.issued, row);
    }
    if ReviewsReferenced(db.restaurants, db.reviews) {
      AppendKeepsReferences(db.restaurants, db.reviews, row);
    }
    db.restaurants := db.restaurants + [row];
    db.issued := db.issued + [row.id];
  }

  /** The fields `updateRestaurant` may change; an absent one (`undefined`) is left out of the
      update. */
  datatype RestaurantUpdates = RestaurantUpdates(name: Option<string>, address: Option<string>, priceTier: Option<int>)

  function ApplyUpdates(row: RestaurantRow, u: RestaurantUpdates): RestaurantRow {
    row.(name := u.name.GetOr(row.name), address := u.address.GetOr(row.address),
         priceTier := u.priceTier.GetOr(row.priceTier))
  }

  /** `update({ name, address, price_tier }).eq("id", id)`: only the named columns of the row with
      that id change. */
  function UpdatedRestaurants(rows: seq<RestaurantRow>, id: Id, u: RestaurantUpdates): (r: seq<RestaurantRow>)
    ensures |r| == |rows|
    ensures forall i :: 0 <= i < |rows| && rows[i].id != id ==> r[i] == rows[i]
    ensures forall i :: 0 <= i < |rows| ==>
      && r[i].id == rows[i].id && r[i].averageRating == rows[i].averageRating
      && r[i].createdAt == rows[i].createdAt && r[i].userId == rows[i].userId
    ensures forall i :: 0 <= i < |rows| && rows[i].id == id ==>
      && (u.name.Some? ==> r[i].name == u.name.value) && (u.name.None? ==> r[i].name == rows[i].name)
      && (u.address.Some? ==> r[i].address == u.address.value) && (u.address.None? ==> r[i].address == rows[i].address)
      && (u.priceTier.Some? ==> r[i].priceTier == u.priceTier.value)
      && (u.priceTier.None? ==> r[i].priceTier == rows[i].priceTier)
  {
    seq(|rows|, i requires 0 <= i < |rows| => if rows[i].id == id then ApplyUpdates(rows[i], u) else rows[i])
  }

  /** An update keeps every restaurant id, so every average stays right and every reference and
      issued id stays valid. */
  lemma UpdateKeepsConsistent(restaurants: seq<RestaurantRow>, reviews: seq<ReviewRow>, issued: seq<Id>,
                              id: Id, u: RestaurantUpdates)
    ensures AveragesConsistent(restaurants, reviews) ==> AveragesConsistent(UpdatedRestaurants(restaurants, id, u), reviews)
    ensures ReviewsReferenced(restaurants, reviews) ==> ReviewsReferenced(UpdatedRestaurants(restaurants, id, u), reviews)
    ensures IdsIssued(restaurants, reviews, issued) ==> IdsIssued(UpdatedRestaurants(restaurants, id, u), reviews, issued)
  {
    var after := UpdatedRestaurants(restaurants, id, u);
    assert Keys(after, RestaurantKey) == Keys(restaurants, RestaurantKey);
  }

  /** `updateRestaurant`: a store error throws; otherwise the row is updated (an id no row has
      updates nothing) and its page and `/` are marked stale. */
  method UpdateRestaurant(db: Db, id: Id, updates: RestaurantUpdates, fault: Fault) returns (out: Outcome<()>)
    requires db.Valid()
    modifies db`restaurants, db`stale
    ensures db.Valid()
    ensures fault.Some? ==>
      out == Threw(Error(UpdateFailedMessage)) && db.restaurants == old(db.restaurants) && db.stale == old(db.stale)
    ensures fault.None? ==>
      && out == Returned(())
      && db.restaurants == UpdatedRestaurants(old(db.restaurants), id, updates)
      && db.stale == old(db.stale) + {RestaurantPath(id), HomePath}
    ensures old(AveragesConsistent(db.restaurants, db.reviews)) ==> AveragesConsistent(db.restaurants, db.reviews)
    ensures old(ReviewsReferenced(db.restaurants, db.reviews)) ==> ReviewsReferenced(db.restaurants, db.reviews)
    ensures old(IdsIssued(db.restaurants, db.reviews, db.issued)) ==> IdsIssued(db.restaurants, db.reviews, db.issued)
  {
    if fault.Some? {
      return Threw(Error(UpdateFailedMessage));
    }
    var after := UpdatedRestaurants(db.restaurants, id, updates);
    UpdateKeepsConsistent(db.restaurants, db.reviews, db.issued, id, updates);
    db.restaurants := after;
    db.Revalidate({RestaurantPath(id), HomePath});
    out := Returned(());
  }

  /** Deleting restaurants keeps every remaining average right. */
  lemma {:induction false} DeleteRestaurantKeepsConsistent(restaurants: seq<RestaurantRow>, reviews: seq<ReviewRow>, id: Id)
    requires AveragesConsistent(restaurants, reviews)
    ensures AveragesConsistent(FilterOut(restaurants, RestaurantKey, id), reviews)
  {
    var after := FilterOut(restaurants, RestaurantKey, id);
    forall i | 0 <= i < |after| ensures after[i].averageRating == Average(Ratings(reviews, after[i].id)) {
      var x := after[i];
      assert x in restaurants;
      assert restaurants[IndexIn(restaurants, x)] == x;
    }
  }

  /** `deleteRestaurant`: a store error throws; otherwise the row with the id is deleted (an id no
      row has deletes nothing and is no error) and `/` is marked stale. */
  method DeleteRestaurant(db: Db, id: Id, fault: Fault) returns (out: Outcome<()>)
    requires db.Valid()
    modifies db`restaurants, db`stale
    ensures db.Valid()
    ensures fault.Some? ==>
      out == Threw(Error(DeleteFailedMessage)) && db.restaurants == old(db.restaurants) && db.stale == old(db.stale)
    ensures fault.None? ==>
      && out == Returned(())
      && db.restaurants == FilterOut(old(db.restaurants), RestaurantKey, id)
      && id !in Keys(db.restaurants, RestaurantKey)
      && db.stale == old(db.stale) + {HomePath}
    ensures fault.None? && id !in Keys(old(db.restaurants), RestaurantKey) ==> db.restaurants == old(db.restaurants)
    ensures old(AveragesConsistent(db.restaurants, db.reviews)) ==> AveragesConsistent(db.restaurants, db.reviews)
    // The reviews of the deleted row stay (the cascade is the database's), but their restaurant id
    // stays issued, so no later restaurant takes it over.
    ensures old(IdsIssued(db.restaurants, db.reviews, db.issued)) ==> IdsIssued(db.restaurants, db.reviews, db.issued)
  {
    if fault.Some? {
      return Threw(Error(DeleteFailedMessage));
    }
    DropRestaurantRow(db, id);
    db.Revalidate({HomePath});
    out := Returned(());
  }

  /** `delete().eq("id", id)` on the restaurants table. */
  method DropRestaurantRow(db: Db, id: Id)
    requires db.Valid()
    modifies db`restaurants
    ensures db.Valid() && db.restaurants == FilterOut(old(db.restaurants), RestaurantKey, id)
    ensures id !in Keys(old(db.restaurants), RestaurantKey) ==> db.restaurants == old(db.restaurants)
    ensures old(AveragesConsistent(db.restaurants, db.reviews)) ==> AveragesConsistent(db.restaurants, db.reviews)
    ensures old(IdsIssued(db.restaurants, db.reviews, db.issued)) ==> IdsIssued(db.restaurants, db.reviews, db.issued)
  {
    FilterOutKeepsUnique(db.restaurants, RestaurantKey, id, RestaurantKey);
    FilterOutAbsent(db.restaurants, RestaurantKey, id);
    if AveragesConsistent(db.restaurants, db.reviews) {
      DeleteRestaurantKeepsConsistent(db.restaurants, db.reviews, id);
    }
    KeysAfterDelete(db.restaurants, id);
    db.restaurants := FilterOut(db.restaurants, RestaurantKey, id);
  }
}
