/** The hosted store held in memory: one sequence of rows per table, the photo bucket's objects,
    and the set of view paths `revalidatePath` has marked stale. */
module Store {
  import opened Wrappers
  import opened Seqs
  import opened Errors

  /** Identifiers are opaque strings assigned by the store. */
  type Id = string
  /** `created_at`, as a number (milliseconds since the epoch). */
  type Timestamp = int

  datatype RestaurantRow = RestaurantRow(
    id: Id, name: string, address: string, priceTier: int,
    averageRating: Option<real>, createdAt: Timestamp, userId: Id)

  datatype ReviewRow = ReviewRow(
    id: Id, restaurantId: Id, userId: Id, rating: int, message: string, createdAt: Timestamp)

  datatype DishRow = DishRow(id: Id, reviewId: Id, name: string, price: Option<real>)

  datatype PhotoRow = PhotoRow(
    id: Id, restaurantId: Option<Id>, reviewId: Option<Id>, url: string, userId: Id, createdAt: Timestamp)

  datatype FavoriteRow = FavoriteRow(id: Id, userId: Id, restaurantId: Id, createdAt: Timestamp)

  datatype ProfileRow = ProfileRow(
    id: Id, name: string, email: string, avatarUrl: Option<string>, isAdmin: bool, createdAt: Timestamp)

  function RestaurantKey(r: RestaurantRow): Id { r.id }
  function ReviewKey(r: ReviewRow): Id { r.id }
  function DishKey(d: DishRow): Id { d.id }
  function PhotoKey(p: PhotoRow): Id { p.id }
  function FavoriteKey(f: FavoriteRow): Id { f.id }
  function ProfileKey(p: ProfileRow): Id { p.id }
  /** The unique `(user_id, restaurant_id)` constraint of the favorites table. */
  function FavoritePair(f: FavoriteRow): (Id, Id) { (f.userId, f.restaurantId) }

  /** An extra failure the hosted store may report at one step, beyond what the tables decide. */
  type Fault = Option<PgError>

  const NoRowError: PgError := PgError(NoSingleRow, "JSON object requested, multiple (or no) rows returned")
  function ForeignKeyError(table: string): PgError {
    PgError(ForeignKeyViolation, "insert or update on table \"" + table + "\" violates foreign key constraint")
  }
  const DuplicateFavoriteError: PgError := PgError(UniqueViolation, "duplicate key value violates unique constraint")

  function MaxLength(ids: seq<Id>): (m: nat)
    ensures forall x :: x in ids ==> |x| <= m
  {
    if ids == [] then 0
    else
      var m := MaxLength(ids[1..]);
      assert forall x :: x in ids ==> x == ids[0] || x in ids[1..];
      if |ids[0]| > m then |ids[0]| else m
  }

  /** An identifier of `length` characters. */
  function Filler(length: nat): (id: Id)
    ensures |id| == length
  {
    if length == 0 then [] else Filler(length - 1) + ['x']
  }

  /** `n` identifiers the store has not handed out: longer than every taken one, and pairwise
      different. */
  function FreshIds(taken: seq<Id>, n: nat): (ids: seq<Id>)
    ensures |ids| == n
    ensures forall k :: 0 <= k < n ==> ids[k] !in taken && |ids[k]| == MaxLength(taken) + 1 + k
    ensures forall i, j :: 0 <= i < j < n ==> ids[i] != ids[j]
  {
    if n == 0 then [] else FreshIds(taken, n - 1) + [Filler(MaxLength(taken) + n)]
  }

  function FreshId(taken: seq<Id>): (id: Id)
    ensures id !in taken
  {
    FreshIds(taken, 1)[0]
  }

  /** JavaScript truthiness of an optional string: present and not empty. */
  predicate Truthy(o: Option<string>) {
    o.Some? && o.value != ""
  }

  const HomePath: string := "/"
  const FavoritesPath: string := "/favorites"
  function RestaurantPath(id: Id): string { "/restaurants/" + id }
  function ReviewPath(id: Id): string { "/reviews/" + id }

  class Db {
    var restaurants: seq<RestaurantRow>
    var reviews: seq<ReviewRow>
    var dishes: seq<DishRow>
    var photos: seq<PhotoRow>
    var favorites: seq<FavoriteRow>
    var profiles: seq<ProfileRow>
    /** The objects of the `photos` storage bucket, by object key. */
    var blobs: map<string, seq<bv8>>
    /** The view paths marked stale by `revalidatePath`. */
    var stale: set<string>
    /** Every restaurant and review id the store has handed out, deleted rows' included: the
        store's ids are uuids, so none of them is handed out again. */
    var issued: seq<Id>
    /** The project URL in front of every public storage URL. */
    const storageUrl: string

    /** The tables' primary keys and the favorites' unique pair. */
    ghost predicate Valid()
      reads this
    {
      && UniqueKeys(restaurants, RestaurantKey)
      && UniqueKeys(reviews, ReviewKey)
      && UniqueKeys(dishes, DishKey)
      && UniqueKeys(photos, PhotoKey)
      && UniqueKeys(favorites, FavoriteKey)
      && UniqueKeys(favorites, FavoritePair)
      && UniqueKeys(profiles, ProfileKey)
    }

    constructor (storageUrl: string)
      ensures Valid()
      ensures this.storageUrl == storageUrl
      ensures restaurants == [] && reviews == [] && dishes == [] && photos == []
      ensures favorites == [] && profiles == [] && blobs == map[] && stale == {} && issued == []
    {
      this.storageUrl := storageUrl;
      restaurants, reviews, dishes, photos := [], [], [], [];
      favorites, profiles, blobs, stale, issued := [], [], map[], {}, [];
    }

    /** `revalidatePath` for each of `paths`: mark them stale and change nothing else. */
    method Revalidate(paths: set<string>)
      requires Valid()
      modifies `stale
      ensures Valid()
      ensures stale == old(stale) + paths
    {
      stale := stale + paths;
    }
  }
}
