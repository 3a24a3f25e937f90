/** The profile and favorites actions of lib/actions/users.ts. Unlike lib/actions/favorites.ts they
    rethrow every store error as it is and mark no page stale. */
module Users {
  import opened Wrappers
  import opened Seqs
  import opened Sorting
  import opened Strings
  import opened Errors
  import opened Store
  import opened Types
  import Favorites

  // ---------------------------------------------------------------------------------------------
  // Profiles

  /** The profile row registration inserts: the account's id, name and e-mail address, and the
      admin flag set exactly when the address contains "admin". */
  function NewProfile(id: Id, name: string, email: string, now: Timestamp): (p: ProfileRow)
    ensures p.id == id && p.name == name && p.email == email && p.avatarUrl.None?
    ensures p.isAdmin <==> exists i :: OccursAt(email, "admin", i)
  {
    ProfileRow(id, name, email, None, Includes(email, "admin"), now)
  }

  /** What a `.single()` read of the profile with the id answers. */
  function ProfileReadError(profiles: seq<ProfileRow>, userId: Id, fault: Fault): (e: Option<PgError>)
    ensures e.None? ==> fault.None? && Single(profiles, ProfileKey, userId).Some?
  {
    if fault.Some? then fault
    else if Single(profiles, ProfileKey, userId).None? then Some(NoRowError)
    else None
  }

  /** `getUserProfile`: the profile whose id is `userId`; a store error, or no such row, throws. */
  function GetUserProfile(profiles: seq<ProfileRow>, userId: Id, fault: Fault): (out: Outcome<ProfileRow>)
    ensures fault.Some? ==> out == Threw(Postgrest(fault.value))
    ensures out.Returned? ==> out.value in profiles && out.value.id == userId
    ensures fault.None? && out.Threw? ==> out == Threw(Postgrest(NoRowError))
  {
    var e := ProfileReadError(profiles, userId, fault);
    if e.Some? then Threw(Postgrest(e.value))
    else Returned(Single(profiles, ProfileKey, userId).value)
  }

  /** With the primary key in force, the profile is found exactly when a row has the id. */
  lemma GetUserProfileFound(profiles: seq<ProfileRow>, userId: Id)
    requires UniqueKeys(profiles, ProfileKey)
    ensures GetUserProfile(profiles, userId, None).Returned? <==> userId in Keys(profiles, ProfileKey)
  {
    SingleUnique(profiles, ProfileKey, userId);
  }

  /** The columns `updateUserProfile` may be given (`Partial<Profile>`); an absent one is left
      out of the update. */
  datatype ProfilePatch = ProfilePatch(
    name: Option<string>, email: Option<string>, avatarUrl: Option<Option<string>>, isAdmin: Option<bool>)

  function ApplyProfilePatch(p: ProfileRow, patch: ProfilePatch): ProfileRow {
    p.(name := patch.name.GetOr(p.name), email := patch.email.GetOr(p.email),
       avatarUrl := patch.avatarUrl.GetOr(p.avatarUrl), isAdmin := patch.isAdmin.GetOr(p.isAdmin))
  }

  /** `update(profile).eq("id", userId)`: only the row with that id changes. */
  function PatchProfiles(rows: seq<ProfileRow>, userId: Id, patch: ProfilePatch): (r: seq<ProfileRow>)
    ensures |r| == |rows|
    ensures forall i :: 0 <= i < |rows| ==> r[i].id == rows[i].id && r[i].createdAt == rows[i].createdAt
    ensures forall i :: 0 <= i < |rows| && rows[i].id != userId ==> r[i] == rows[i]
    ensures forall i :: 0 <= i < |rows| && rows[i].id == userId ==> r[i] == ApplyProfilePatch(rows[i], patch)
  {
    seq(|rows|, i requires 0 <= i < |rows| => if rows[i].id == userId then ApplyProfilePatch(rows[i], patch) else rows[i])
  }

  /** A patch sets the columns it names and keeps the others. */
  lemma ApplyProfilePatchFields(p: ProfileRow, patch: ProfilePatch)
    ensures var q := ApplyProfilePatch(p, patch);
      && q.id == p.id && q.createdAt == p.createdAt
      && (patch.name.Some? ==> q.name == patch.name.value) && (patch.name.None? ==> q.name == p.name)
      && (patch.email.Some? ==> q.email == patch.email.value) && (patch.email.None? ==> q.email == p.email)
      && (patch.avatarUrl.Some? ==> q.avatarUrl == patch.avatarUrl.value)
      && (patch.avatarUrl.None? ==> q.avatarUrl == p.avatarUrl)
      && (patch.isAdmin.Some? ==> q.isAdmin == patch.isAdmin.value) && (patch.isAdmin.None? ==> q.isAdmin == p.isAdmin)
  {
  }

  /** `updateUserProfile`: patch the profile with the id and return it; a store error, or no such
      row for `.single()`, throws with nothing changed. */
  method UpdateUserProfile(db: Db, userId: Id, patch: ProfilePatch, fault: Fault) returns (out: Outcome<ProfileRow>)
    requires db.Valid()
    modifies db`profiles
    ensures db.Valid()
    ensures var e := ProfileReadError(old(db.profiles), userId, fault);
      && (e.Some? ==> out == Threw(Postgrest(e.value)) && db.profiles == old(db.profiles))
      && (e.None? ==>
            && db.profiles == PatchProfiles(old(db.profiles), userId, patch)
            && out == Returned(ApplyProfilePatch(Single(old(db.profiles), ProfileKey, userId).value, patch))
            && out.value in db.profiles && out.value.id == userId)
  {
    var e := ProfileReadError(db.profiles, userId, fault);
    if e.Some? {
      return Threw(Postgrest(e.value));
    }
    var row := Single(db.profiles, ProfileKey, userId).value;
    var after := PatchProfiles(db.profiles, userId, patch);
    assert after[IndexIn(db.profiles, row)] == ApplyProfilePatch(row, patch);
    assert Keys(after, ProfileKey) == Keys(db.profiles, ProfileKey);
    db.profiles := after;
    out := Returned(ApplyProfilePatch(row, patch));
  }

  // ---------------------------------------------------------------------------------------------
  // Favorites

  /** The embedded `restaurants (id, name, address, price_tier, average_rating, photos (url))`. */
  datatype FavoriteRestaurant = FavoriteRestaurant(
    id: Id, name: string, address: string, priceTier: int, averageRating: Option<real>, photos: seq<string>)

  /** A favorites row with its embedded restaurant, `null` when the row references none. */
  datatype FavoriteEntry = FavoriteEntry(favorite: FavoriteRow, restaurant: Option<FavoriteRestaurant>)

  function FavoriteCreated(f: FavoriteRow): real { f.createdAt as real }

  function Embedded(restaurants: seq<RestaurantRow>, photos: seq<PhotoRow>, f: FavoriteRow): (e: FavoriteEntry)
    ensures e.favorite == f
    ensures e.restaurant.Some? ==>
      exists row :: row in restaurants && row.id == f.restaurantId
        && e.restaurant.value == FavoriteRestaurant(row.id, row.name, row.address, row.priceTier, row.averageRating,
                                                    RestaurantPhotos(photos, row.id))
  {
    var row := Single(restaurants, RestaurantKey, f.restaurantId);
    if row.None? then FavoriteEntry(f, None)
    else
      var r := row.value;
      FavoriteEntry(f, Some(FavoriteRestaurant(r.id, r.name, r.address, r.priceTier, r.averageRating,
                                               RestaurantPhotos(photos, r.id))))
  }

  /** The favorites rows of a list of entries. */
  function EntryRows(entries: seq<FavoriteEntry>): (rows: seq<FavoriteRow>)
    ensures |rows| == |entries| && forall k :: 0 <= k < |entries| ==> rows[k] == entries[k].favorite
  {
    seq(|entries|, k requires 0 <= k < |entries| => entries[k].favorite)
  }

  /** `getUserFavorites`: the user's favorites rows, newest first, each with its restaurant; a
      store error is thrown. */
  function GetUserFavorites(favorites: seq<FavoriteRow>, restaurants: seq<RestaurantRow>, photos: seq<PhotoRow>,
                            userId: Id, fault: Fault): (out: Outcome<seq<FavoriteEntry>>)
    ensures fault.Some? ==> out == Threw(Postgrest(fault.value))
    ensures fault.None? ==> out.Returned?
    ensures fault.None? ==> |out.value| == |Matching(favorites, Favorites.FavoriteUser, userId)|
    ensures fault.None? ==> forall f :: f in EntryRows(out.value) <==> f in favorites && f.userId == userId
    ensures fault.None? ==> forall i, j :: 0 <= i < j < |out.value| ==>
      out.value[i].favorite.createdAt >= out.value[j].favorite.createdAt
    ensures fault.None? ==> forall k :: 0 <= k < |out.value| ==>
      out.value[k] == Embedded(restaurants, photos, out.value[k].favorite)
  {
    if fault.Some? then Threw(Postgrest(fault.value))
    else
      var m := Matching(favorites, Favorites.FavoriteUser, userId);
      var sorted := SortDesc(m, FavoriteCreated);
      SortDescSpec(m, FavoriteCreated);
      SortDescMembers(m, FavoriteCreated);
      var list := seq(|sorted|, k requires 0 <= k < |sorted| => Embedded(restaurants, photos, sorted[k]));
      assert EntryRows(list) == sorted;
      Returned(list)
  }

  /** With the restaurants' primary key in force, a favorite embeds its restaurant exactly when the
      restaurant exists. */
  lemma EmbeddedExactly(restaurants: seq<RestaurantRow>, photos: seq<PhotoRow>, f: FavoriteRow)
    requires UniqueKeys(restaurants, RestaurantKey)
    ensures Embedded(restaurants, photos, f).restaurant.Some? <==> f.restaurantId in Keys(restaurants, RestaurantKey)
  {
    SingleUnique(restaurants, RestaurantKey, f.restaurantId);
  }

  /** `addFavorite`: insert the pair and return the row. Every store error is thrown, the unique
      violation of a pair already stored included. */
  method AddFavorite(db: Db, userId: Id, restaurantId: Id, now: Timestamp, fault: Fault) returns (out: Outcome<FavoriteRow>)
    requires db.Valid()
    modifies db`favorites
    ensures db.Valid()
    ensures var err := Favorites.InsertFavoriteError(old(db.favorites), db.restaurants, userId, restaurantId, fault);
      && (err.Some? ==> out == Threw(Postgrest(err.value)) && db.favorites == old(db.favorites))
      && (err.None? ==>
            var row := Favorites.NewFavorite(old(db.favorites), userId, restaurantId, now);
            out == Returned(row) && db.favorites == old(db.favorites) + [row])
    ensures fault.None? && (userId, restaurantId) in Keys(old(db.favorites), FavoritePair) ==>
      out == Threw(Postgrest(DuplicateFavoriteError))
  {
    var err := Favorites.InsertFavoriteError(db.favorites, db.restaurants, userId, restaurantId, fault);
    if err.Some? {
      return Threw(Postgrest(err.value));
    }
    Favorites.AddFavoriteUnique(db.favorites, db.restaurants, userId, restaurantId, now);
    var row := Favorites.NewFavorite(db.favorites, userId, restaurantId, now);
    db.favorites := db.favorites + [row];
    out := Returned(row);
  }

  /** `removeFavorite`: delete the pair's row (a missing pair is no error); a store error is thrown. */
  method RemoveFavorite(db: Db, userId: Id, restaurantId: Id, fault: Fault) returns (out: Outcome<()>)
    requires db.Valid()
    modifies db`favorites
    ensures db.Valid()
    ensures fault.Some? ==> out == Threw(Postgrest(fault.value)) && db.favorites == old(db.favorites)
    ensures fault.None? ==> out == Returned(()) && db.favorites == Favorites.RemovedFavorites(old(db.favorites), userId, restaurantId)
  {
    if fault.Some? {
      return Threw(Postgrest(fault.value));
    }
    FilterOutKeepsUnique(db.favorites, FavoritePair, (userId, restaurantId), FavoriteKey);
    FilterOutKeepsUnique(db.favorites, FavoritePair, (userId, restaurantId), FavoritePair);
    db.favorites := Favorites.RemovedFavorites(db.favorites, userId, restaurantId);
    out := Returned(());
  }
}
