/** A user's favorite restaurants (lib/actions/favorites.ts): an add that swallows duplicates,
    a remove, a membership test and the list of favorites. */
module Favorites {
  import opened Wrappers
  import opened Seqs
  import opened Errors
  import opened Store
  import opened Types

  const FetchFailedMessage: string := "Nem sikerült lekérni a kedvenceket"
  const AddFailedMessage: string := "Nem sikerült hozzáadni a kedvencekhez"
  const RemoveFailedMessage: string := "Nem sikerült eltávolítani a kedvencekből"
  /** What reading a property of the `null` an absent embedded row comes back as throws. */
  const MissingRestaurantMessage: string := "Cannot read properties of null (reading 'id')"

  function FavoriteUser(f: FavoriteRow): Id { f.userId }

  // ---------------------------------------------------------------------------------------------
  // The favorites table as values

  /** The row `insert({ user_id, restaurant_id })` stores. */
  function NewFavorite(favorites: seq<FavoriteRow>, userId: Id, restaurantId: Id, now: Timestamp): (f: FavoriteRow)
    ensures f.id !in Keys(favorites, FavoriteKey)
    ensures FavoritePair(f) == (userId, restaurantId)
  {
    FavoriteRow(FreshId(Keys(favorites, FavoriteKey)), userId, restaurantId, now)
  }

  /** What the store answers to that insert: a duplicate pair violates the unique constraint, a
      missing restaurant the foreign key; a fault is reported as it is. */
  function InsertFavoriteError(favorites: seq<FavoriteRow>, restaurants: seq<RestaurantRow>,
                               userId: Id, restaurantId: Id, fault: Fault): (e: Option<PgError>)
    ensures fault.None? && (userId, restaurantId) in Keys(favorites, FavoritePair) ==> e == Some(DuplicateFavoriteError)
    ensures fault.None? && e.None? ==>
      (userId, restaurantId) !in Keys(favorites, FavoritePair) && restaurantId in Keys(restaurants, RestaurantKey)
  {
    if fault.Some? then fault
    else if (userId, restaurantId) in Keys(favorites, FavoritePair) then Some(DuplicateFavoriteError)
    else if restaurantId !in Keys(restaurants, RestaurantKey) then Some(ForeignKeyError("favorites"))
    else None
  }

  /** The favorites table after `addFavorite` when the store reports no fault of its own. */
  function AddedFavorites(favorites: seq<FavoriteRow>, restaurants: seq<RestaurantRow>,
                          userId: Id, restaurantId: Id, now: Timestamp): seq<FavoriteRow>
  {
    if InsertFavoriteError(favorites, restaurants, userId, restaurantId, None).Some? then favorites
    else favorites + [NewFavorite(favorites, userId, restaurantId, now)]
  }

  /** Adding keeps the pair unique, and adding the same pair again changes nothing. */
  lemma AddFavoriteUnique(favorites: seq<FavoriteRow>, restaurants: seq<RestaurantRow>,
                          userId: Id, restaurantId: Id, now: Timestamp)
    requires UniqueKeys(favorites, FavoriteKey) && UniqueKeys(favorites, FavoritePair)
    ensures var after := AddedFavorites(favorites, restaurants, userId, restaurantId, now);
      UniqueKeys(after, FavoriteKey) && UniqueKeys(after, FavoritePair)
  {
    if InsertFavoriteError(favorites, restaurants, userId, restaurantId, None).None? {
      var f := NewFavorite(favorites, userId, restaurantId, now);
      UniqueKeysAppend(favorites, f, FavoriteKey);
      UniqueKeysAppend(favorites, f, FavoritePair);
    }
  }

  lemma {:induction false} AddFavoriteIdempotent(favorites: seq<FavoriteRow>, restaurants: seq<RestaurantRow>,
                                                 userId: Id, restaurantId: Id, now: Timestamp, later: Timestamp)
    ensures var once := AddedFavorites(favorites, restaurants, userId, restaurantId, now);
      AddedFavorites(once, restaurants, userId, restaurantId, later) == once
  {
    var once := AddedFavorites(favorites, restaurants, userId, restaurantId, now);
    if once != favorites {
      var f := NewFavorite(favorites, userId, restaurantId, now);
      assert Keys(once, FavoritePair)[|favorites|] == (userId, restaurantId);
    }
  }

  /** `delete().eq("user_id", userId).eq("restaurant_id", restaurantId)`. */
  function RemovedFavorites(favorites: seq<FavoriteRow>, userId: Id, restaurantId: Id): (r: seq<FavoriteRow>)
    ensures forall f :: f in r <==> f in favorites && FavoritePair(f) != (userId, restaurantId)
    ensures (userId, restaurantId) !in Keys(favorites, FavoritePair) ==> r == favorites
  {
    FilterOutAbsent(favorites, FavoritePair, (userId, restaurantId));
    FilterOut(favorites, FavoritePair, (userId, restaurantId))
  }

  /** `isFavorite`: `maybeSingle()` finds the pair's row; an error (including more than one row)
      answers false instead of throwing. */
  function IsFavorite(favorites: seq<FavoriteRow>, userId: Id, restaurantId: Id, fault: Fault): (b: bool)
    ensures fault.Some? ==> !b
    ensures b ==> (userId, restaurantId) in Keys(favorites, FavoritePair)
  {
    var found := Single(favorites, FavoritePair, (userId, restaurantId));
    assert found.Some? ==> Keys(favorites, FavoritePair)[IndexIn(favorites, found.value)] == (userId, restaurantId);
    fault.None? && found.Some?
  }

  /** Under the table's unique constraint the answer is exactly whether the pair is stored. */
  lemma IsFavoriteExactly(favorites: seq<FavoriteRow>, userId: Id, restaurantId: Id)
    requires UniqueKeys(favorites, FavoritePair)
    ensures IsFavorite(favorites, userId, restaurantId, None) <==> (userId, restaurantId) in Keys(favorites, FavoritePair)
  {
    SingleUnique(favorites, FavoritePair, (userId, restaurantId));
  }

  /** After a successful add the pair is a favorite; after a remove it is not. */
  lemma IsFavoriteAfterAdd(favorites: seq<FavoriteRow>, restaurants: seq<RestaurantRow>,
                           userId: Id, restaurantId: Id, now: Timestamp)
    requires UniqueKeys(favorites, FavoriteKey) && UniqueKeys(favorites, FavoritePair)
    requires restaurantId in Keys(restaurants, RestaurantKey)
    ensures IsFavorite(AddedFavorites(favorites, restaurants, userId, restaurantId, now), userId, restaurantId, None)
  {
    var after := AddedFavorites(favorites, restaurants, userId, restaurantId, now);
    AddFavoriteUnique(favorites, restaurants, userId, restaurantId, now);
    if after != favorites {
      assert Keys(after, FavoritePair)[|favorites|] == (userId, restaurantId);
    }
    IsFavoriteExactly(after, userId, restaurantId);
  }

  lemma IsFavoriteAfterRemove(favorites: seq<FavoriteRow>, userId: Id, restaurantId: Id)
    ensures !IsFavorite(RemovedFavorites(favorites, userId, restaurantId), userId, restaurantId, None)
  {
    var after := RemovedFavorites(favorites, userId, restaurantId);
    assert (userId, restaurantId) !in Keys(after, FavoritePair);
  }

  // ---------------------------------------------------------------------------------------------
  // The actions

  /** `addFavorite`: a unique violation (code 23505) means the pair is already a favorite and returns
      before any page is invalidated; any other error throws; success marks the favorites page and
      the restaurant's page stale. */
  method AddFavorite(db: Db, userId: Id, restaurantId: Id, now: Timestamp, fault: Fault)
    returns (out: Outcome<()>)
    requires db.Valid()
    modifies db`favorites, db`stale
    ensures db.Valid()
    ensures var err := InsertFavoriteError(old(db.favorites), db.restaurants, userId, restaurantId, fault);
      && (err.Some? && err.value.code == UniqueViolation ==>
            out == Returned(()) && db.favorites == old(db.favorites) && db.stale == old(db.stale))
      && (err.Some? && err.value.code != UniqueViolation ==>
            out == Threw(Error(AddFailedMessage)) && db.favorites == old(db.favorites) && db.stale == old(db.stale))
      && (err.None? ==>
            && out == Returned(())
            && db.favorites == AddedFavorites(old(db.favorites), db.restaurants, userId, restaurantId, now)
            && db.stale == old(db.stale) + {FavoritesPath, RestaurantPath(restaurantId)})
  {
    var err := InsertFavoriteError(db.favorites, db.restaurants, userId, restaurantId, fault);
    if err.Some? {
      if err.value.code == UniqueViolation {
        return Returned(());
      }
      return Threw(Error(AddFailedMessage));
    }
    InsertFavorite(db, userId, restaurantId, now);
    db.Revalidate({FavoritesPath, RestaurantPath(restaurantId)});
    out := Returned(());
  }

  /** The accepted insert of the pair's row. */
  method InsertFavorite(db: Db, userId: Id, restaurantId: Id, now: Timestamp)
    requires db.Valid()
    modifies db`favorites
    ensures db.Valid()
    ensures db.favorites == AddedFavorites(old(db.favorites), db.restaurants, userId, restaurantId, now)
  {
    AddFavoriteUnique(db.favorites, db.restaurants, userId, restaurantId, now);
    db.favorites := AddedFavorites(db.favorites, db.restaurants, userId, restaurantId, now);
  }

  /** Adding the same favorite twice: both calls return normally and exactly one row holds the pair. */
  method AddFavoriteTwice(db: Db, userId: Id, restaurantId: Id, now: Timestamp, later: Timestamp)
    returns (first: Outcome<()>, second: Outcome<()>)
    requires db.Valid()
    requires restaurantId in Keys(db.restaurants, RestaurantKey)
    modifies db`favorites, db`stale
    ensures first == Returned(()) && second == Returned(())
    ensures |Matching(db.favorites, FavoritePair, (userId, restaurantId))| == 1
  {
    var before := db.favorites;
    first := AddFavorite(db, userId, restaurantId, now, None);
    IsFavoriteAfterAdd(before, db.restaurants, userId, restaurantId, now);
    IsFavoriteExactly(db.favorites, userId, restaurantId);
    second := AddFavorite(db, userId, restaurantId, later, None);
    MatchingUnique(db.favorites, FavoritePair, (userId, restaurantId));
  }

  /** `removeFavorite`: delete the pair's row (a missing pair deletes nothing and is no error), then
      mark the favorites page and the restaurant's page stale; a store error throws. */
  method RemoveFavorite(db: Db, userId: Id, restaurantId: Id, fault: Fault)
    returns (out: Outcome<()>)
    requires db.Valid()
    modifies db`favorites, db`stale
    ensures db.Valid()
    ensures fault.Some? ==>
      out == Threw(Error(RemoveFailedMessage)) && db.favorites == old(db.favorites) && db.stale == old(db.stale)
    ensures fault.None? ==>
      && out == Returned(())
      && db.favorites == RemovedFavorites(old(db.favorites), userId, restaurantId)
      && db.stale == old(db.stale) + {FavoritesPath, RestaurantPath(restaurantId)}
  {
    if fault.Some? {
      return Threw(Error(RemoveFailedMessage));
    }
    FilterOutKeepsUnique(db.favorites, FavoritePair, (userId, restaurantId), FavoriteKey);
    FilterOutKeepsUnique(db.favorites, FavoritePair, (userId, restaurantId), FavoritePair);
    db.favorites := RemovedFavorites(db.favorites, userId, restaurantId);
    db.Revalidate({FavoritesPath, RestaurantPath(restaurantId)});
    out := Returned(());
  }

  // ---------------------------------------------------------------------------------------------
  // The list of favorites

  /** The restaurant a favorite row embeds, mapped to the summary shape; `None` when the row
      has no restaurant to embed. */
  function FavoriteRestaurant(restaurants: seq<RestaurantRow>, photos: seq<PhotoRow>, f: FavoriteRow): Option<Restaurant> {
    var row := Single(restaurants, RestaurantKey, f.restaurantId);
    if row.Some? then Some(ToRestaurant(row.value, RestaurantPhotos(photos, row.value.id))) else None
  }

  /** `getFavorites`: one restaurant per favorites row of the user, in table order. A store error
      throws the fixed message; a row whose restaurant cannot be embedded makes the mapping throw. */
  function GetFavorites(favorites: seq<FavoriteRow>, restaurants: seq<RestaurantRow>, photos: seq<PhotoRow>,
                        userId: Id, fault: Fault): (out: Outcome<seq<Restaurant>>)
    ensures fault.Some? ==> out == Threw(Error(FetchFailedMessage))
    ensures out.Returned? ==>
      var rows := Matching(favorites, FavoriteUser, userId);
      && |out.value| == |rows|
      && forall k :: 0 <= k < |rows| ==>
           && out.value[k].id == rows[k].restaurantId
           && (exists row :: row in restaurants && out.value[k] == ToRestaurant(row, RestaurantPhotos(photos, row.id)))
  {
    var rows := Matching(favorites, FavoriteUser, userId);
    if fault.Some? then Threw(Error(FetchFailedMessage))
    else if exists k :: 0 <= k < |rows| && FavoriteRestaurant(restaurants, photos, rows[k]).None? then
      Threw(Error(MissingRestaurantMessage))
    else
      var list := seq(|rows|, k requires 0 <= k < |rows| => FavoriteRestaurant(restaurants, photos, rows[k]).value);
      assert forall k :: 0 <= k < |rows| ==>
        list[k] == ToRestaurant(Single(restaurants, RestaurantKey, rows[k].restaurantId).value,
                                RestaurantPhotos(photos, rows[k].restaurantId));
      Returned(list)
  }

  /** With referential integrity every favorite embeds its restaurant, so the list is returned. */
  lemma GetFavoritesReturns(favorites: seq<FavoriteRow>, restaurants: seq<RestaurantRow>, photos: seq<PhotoRow>, userId: Id)
    requires UniqueKeys(restaurants, RestaurantKey)
    requires forall f :: f in favorites ==> f.restaurantId in Keys(restaurants, RestaurantKey)
    ensures GetFavorites(favorites, restaurants, photos, userId, None).Returned?
  {
    var rows := Matching(favorites, FavoriteUser, userId);
    forall k | 0 <= k < |rows| ensures FavoriteRestaurant(restaurants, photos, rows[k]).Some? {
      assert rows[k] in favorites;
      SingleUnique(restaurants, RestaurantKey, rows[k].restaurantId);
    }
  }
}
