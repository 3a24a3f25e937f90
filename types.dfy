/** The record shapes the actions hand to the pages (lib/types.ts), and the mapping from rows. */
module Types {
  import opened Wrappers
  import opened Seqs
  import opened Store

  datatype Dish = Dish(id: Id, reviewId: Id, name: string, price: Option<real>)

  datatype Review = Review(
    id: Id, restaurantId: Id, userId: Id, rating: int, message: string,
    dishes: seq<Dish>, photos: seq<string>, createdAt: Timestamp)

  /** `reviews` is present only in the detail view. */
  datatype Restaurant = Restaurant(
    id: Id, name: string, address: string, priceTier: int, averageRating: Option<real>,
    photos: seq<string>, reviews: Option<seq<Review>>, createdAt: Timestamp, userId: Id)

  /** A file chosen in a browser file input. */
  datatype File = File(name: string, content: seq<bv8>)

  /** The signed-in user as the session context exposes it. */
  datatype User = User(id: Id, name: string, email: string, isAdmin: bool)

  function PhotoRestaurant(p: PhotoRow): Option<Id> { p.restaurantId }
  function PhotoReview(p: PhotoRow): Option<Id> { p.reviewId }

  /** `photos?.map((photo) => photo.url) || []`. */
  function PhotoUrls(photos: seq<PhotoRow>): (urls: seq<string>)
    ensures |urls| == |photos|
    ensures forall k :: 0 <= k < |photos| ==> urls[k] == photos[k].url
  {
    seq(|photos|, k requires 0 <= k < |photos| => photos[k].url)
  }

  /** The embedded `photos (url)` of a restaurant: the URLs of the photos whose `restaurant_id`
      is its id, in table order. */
  function RestaurantPhotos(photos: seq<PhotoRow>, id: Id): (urls: seq<string>)
    ensures forall u :: u in urls <==> exists p :: p in photos && p.restaurantId == Some(id) && p.url == u
  {
    var m := Matching(photos, PhotoRestaurant, Some(id));
    assert forall p :: p in m ==> PhotoUrls(m)[IndexIn(m, p)] == p.url;
    PhotoUrls(m)
  }

  /** The embedded `photos (url)` of a review: the URLs of the photos whose `review_id` is
      its id, in table order. */
  function ReviewPhotos(photos: seq<PhotoRow>, reviewId: Id): (urls: seq<string>)
    ensures forall u :: u in urls <==> exists p :: p in photos && p.reviewId == Some(reviewId) && p.url == u
  {
    var m := Matching(photos, PhotoReview, Some(reviewId));
    assert forall p :: p in m ==> PhotoUrls(m)[IndexIn(m, p)] == p.url;
    PhotoUrls(m)
  }

  /** The position of an element of `s`. */
  function IndexIn<T(==)>(s: seq<T>, x: T): (i: nat)
    requires x in s
    ensures i < |s| && s[i] == x
  {
    if s[0] == x then 0 else 1 + IndexIn(s[1..], x)
  }

  /** The summary shape of a restaurant row (`getRestaurants`, `getFavorites`): every column
      copied, the photo URLs attached, no reviews. */
  function ToRestaurant(row: RestaurantRow, photos: seq<string>): (r: Restaurant)
    ensures r.id == row.id && r.name == row.name && r.address == row.address
    ensures r.priceTier == row.priceTier && r.averageRating == row.averageRating
    ensures r.createdAt == row.createdAt && r.userId == row.userId
    ensures r.photos == photos && r.reviews.None?
  {
    Restaurant(row.id, row.name, row.address, row.priceTier, row.averageRating, photos, None, row.createdAt, row.userId)
  }
}
