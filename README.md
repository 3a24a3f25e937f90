# Restaurant and pub reviews: a Dafny model

The application is a catalogue of restaurants and pubs, with a Hungarian user interface. Signed-in
users add venues with a price tier (1 to 3) and photos. They write reviews with a 1–5 rating, a
message, the dishes they ate and photos. They keep a list of favourites, and admins get an admin
area. All data lives in a hosted Postgres store with a photo bucket.

The model has three parts:

- **The data-access actions** (`lib/actions/*.ts`). Each table is a sequence of rows in the
  `Store.Db` class. The photo bucket is a map from object key to bytes. The view paths
  `revalidatePath` marks are a set. Every store step takes a `Fault`, the extra error the hosted
  store may report. Beyond that, the tables themselves decide the errors: missing references
  (23503), duplicate favourite pairs (23505), and `.single()` finding no row (PGRST116). Each
  action is a method whose `ensures` gives the new state of every table it touches, for every
  path through it. The central invariant is `Reviews.AveragesConsistent`: every restaurant's
  `average_rating` is the average of its current ratings, or null when it has none. It goes
  together with `Reviews.IdsIssued`: every stored restaurant id, and every restaurant id a
  review names, is among the ids the store has handed out (`Db.issued`). The empty store
  satisfies both. Every restaurant action and every review action keeps `IdsIssued`, whatever
  its outcome. Creating, updating and deleting a restaurant keep `AveragesConsistent`. So do
  creating and deleting a review when the call returns normally, and updating a review when it
  stays at its restaurant. A review action that throws after its first write leaves the average
  stale, as the code does.
- **The error taxonomy** (`lib/utils/error-handling.ts`): how store error codes map to status
  codes and user messages.
- **The pages and components**, as classes over their React state:
  - the review form, the restaurant form and the add page;
  - the search page and the home page;
  - the star rating, the admin route guard and the bottom navigation bar.

  The server actions these call are recorded in a `calls` log, and the outcomes of those calls
  are parameters.

Identifiers the store generates come from `Store.FreshIds`: strings longer than every taken id,
so they never collide. Restaurant and review ids also avoid every id handed out before, deleted
rows' included, because the store's ids are uuids and are never reused. The clock (`now`) and the random part of a storage key (`token`) are
parameters.

## Model

| member | source | states |
|---|---|---|
| Errors.HandleSupabaseError | lib/utils/error-handling.ts:14-28 | Always throws an AppError. A store error's code is kept, and the status is 409 exactly for 23505, 404 exactly for 23503 and 403 exactly for 42501; anything else is 500 with the original message. Any other Error becomes status 500 with its own message and no code. |
| Errors.GetErrorMessage | lib/utils/error-handling.ts:34-42 | The message of an AppError or other Error; a value that is not an Error gives the fixed "unknown error" text. |
| Errors.HandledMessage | lib/utils/error-handling.ts:14-42 | After both functions, the three special codes show their fixed Hungarian texts; every other error shows its own message. |
| Utils.GetPriceLabel | lib/utils.ts:17-28 | The label is only dollar signs: one per tier for tiers 1–3, and a single one for any other value. |
| Utils.PriceLabelsDistinct | lib/utils.ts:17-28 | Different tiers 1–3 get different labels. |
| Types.PhotoUrls | lib/actions/restaurants.ts:35 | One URL per photo row, in order. |
| Types.RestaurantPhotos | lib/actions/restaurants.ts:19 | A URL appears exactly when some photo of that restaurant has it. |
| Types.ToRestaurant | lib/actions/restaurants.ts:29-38 | Every column is copied to the camel-case shape with the photo URLs attached, and there are no reviews. |
| Sorting.SortDescSpec | app/page.tsx:40-46 | The descending sort is a permutation of its input and non-increasing in the key. |
| Strings.Trim | components/review-form.tsx:49 | `trim`: the result has no white space at either end, and is empty exactly when the input is all white space. |
| Strings.TrimIsSlice | components/review-form.tsx:49 | What `trim` leaves is the slice of the input between a white-space prefix and a white-space suffix, so with the properties of `Trim` it is the input without its white-space ends. |
| Strings.Includes | app/search/page.tsx:54-57 | `includes` holds exactly when the substring occurs at some position. |
| Strings.ToLower | app/search/page.tsx:54-57 | Same length; each upper-case letter is folded and every other character is kept. |
| Strings.JoinSplit | lib/actions/photos.ts:87-88 | Joining the parts of a split gives the string back. |
| Strings.SplitPartsAreFree | lib/actions/photos.ts:87 | No part of a `split` contains the separator. |
| Strings.SplitJoin | lib/actions/photos.ts:87-88 | Splitting the join of separator-free parts gives the parts back. |
| Strings.LastPartIsSuffix | lib/actions/photos.ts:12 | `split(".").pop()` is a dot-free suffix of the name: the whole name without a dot, otherwise the text after its last dot. |
| Strings.IndexOf | lib/actions/photos.ts:88 | `indexOf` is -1 exactly when the segment is absent, and otherwise its first position. |
| Strings.SliceFrom | lib/actions/photos.ts:88 | `slice(start)` is the suffix from `start`, a negative start counting from the end. |
| Store.Db.Revalidate | lib/actions/reviews.ts:53 | `revalidatePath` adds exactly the given paths to the stale set and changes nothing else. |
| Store.FreshIds | lib/actions/reviews.ts:37-48 | The ids given to inserted rows are new and pairwise different; none is among the taken ids passed in, which for restaurants and reviews include every id handed out before. |
| Reviews.Average | lib/actions/reviews.ts:112-114 | Null exactly for no ratings; otherwise the average times the count is the sum. |
| Reviews.Ratings | lib/actions/reviews.ts:104-110 | One rating per review of the restaurant; a value occurs exactly when some review of that restaurant has it. |
| Reviews.SumConcat | lib/actions/reviews.ts:112 | The `reduce` sum of two runs of ratings is the sum of their sums. |
| Reviews.AveragesConsistent | lib/actions/reviews.ts:104-122 | The central invariant. Where it holds, a restaurant's average is null exactly when it has no reviews. |
| Reviews.AverageInRange | lib/actions/reviews.ts:112-114 | Ratings on the 1..5 scale give an average between 1 and 5. |
| Reviews.StoredAverageInRange | lib/actions/reviews.ts:104-122 | A restaurant's recomputed average lies between 1 and 5 whenever all stored ratings do. |
| Reviews.RatingsAfterInsert | lib/actions/reviews.ts:28-55 | A new review adds its rating last to its own restaurant's ratings and changes no other restaurant's. |
| Reviews.RatingsAfterDelete | lib/actions/reviews.ts:82-102 | Deleting a review changes no other restaurant's ratings. |
| Reviews.LastReviewDeleted | lib/actions/reviews.ts:82-122 | Deleting a restaurant's only review leaves no ratings, so its average becomes null. |
| Reviews.RecomputeConsistent | lib/actions/reviews.ts:104-122 | Recomputing one restaurant restores the average invariant when no other restaurant's ratings changed. |
| Reviews.InsertKeepsConsistent | lib/actions/reviews.ts:28-55 | Insert then recompute keeps every average right. |
| Reviews.DeleteKeepsConsistent | lib/actions/reviews.ts:82-102 | Delete then recompute keeps every average right. |
| Reviews.RatingsAfterPatch | lib/actions/reviews.ts:57-80 | An update that keeps the review at its restaurant changes no other restaurant's ratings. |
| Reviews.PatchKeepsConsistent | lib/actions/reviews.ts:57-80 | Such an update, then recompute, keeps every average right. |
| Reviews.SetAverage | lib/actions/reviews.ts:116-119 | Only the row with that id gets the new average, with every other column kept; every other restaurant is unchanged. |
| Reviews.InsertedReview | lib/actions/reviews.ts:29-33 | The inserted review's id is neither taken nor handed out before. |
| Reviews.ReviewInsertError | lib/actions/reviews.ts:29-35 | A fault is the error. Without one, the insert fails exactly when the restaurant does not exist. |
| Reviews.TaggedDishes | lib/actions/reviews.ts:37-48 | One row per dish, in order, with its name and price and the new review's id, under ids that are new and pairwise different. |
| Reviews.AddTaggedKeepsUnique | lib/actions/reviews.ts:43-45 | Inserting the tagged dishes keeps the dish ids unique. |
| Reviews.PatchReviews | lib/actions/reviews.ts:58-63 | The row with that id becomes the patched row and keeps its id; every other row is unchanged. |
| Reviews.ReviewUpdateError | lib/actions/reviews.ts:58-65 | A fault is the error. Without one, the update succeeds exactly when a row has the id and a patched restaurant id exists. |
| Reviews.UpsertDish | lib/actions/reviews.ts:67-73 | Upserting one dish stores it, keeps every row with another id, adds nothing else and keeps the ids unique. |
| Reviews.UpsertDishes | lib/actions/reviews.ts:67-73 | Every dish of the batch is stored, every row whose id the batch lacks stays, nothing else appears, and the ids stay unique. |
| Reviews.DistinctIds | lib/actions/reviews.ts:67-73 | The computed check holds exactly when the batch's ids are unique. |
| Reviews.DishUpsertError | lib/actions/reviews.ts:67-74 | An upsert the store accepts has distinct ids. |
| Reviews.UpdateRestaurantAverageRating | lib/actions/reviews.ts:104-122 | A failed read or write throws the store error and leaves the rows alone. Otherwise the restaurant's row gets the average of its current ratings. |
| Reviews.RecomputeAndInvalidate | lib/actions/reviews.ts:51-53 | The recompute, then the restaurant page is marked stale; on a failure nothing is marked. |
| Reviews.CreateReview | lib/actions/reviews.ts:28-55 | The new state and result for each failing step. A failed dish insert keeps the stored review and skips the recompute. Success stores the review and its tagged dishes, recomputes and invalidates, and keeps every average consistent. The new review's id is recorded as issued. Every outcome keeps the restaurant foreign key and `IdsIssued`. |
| Reviews.InsertReviewAndDishes | lib/actions/reviews.ts:29-55 | Once the review insert is accepted: the row is stored and its id issued; a failed dish insert throws with the dishes, averages and stale paths unchanged; otherwise the tagged dishes are stored, then the recompute either throws with nothing more changed or sets the restaurant's new average and marks its page stale. Success keeps every average consistent. |
| Reviews.StoreDishesAndRecompute | lib/actions/reviews.ts:37-53 | No dish insert for an empty list; a failed dish insert throws before the recompute; otherwise the tagged dishes are appended, then the average is recomputed and the page marked stale. When the averages matched the table before the new review, success makes them match again. |
| Reviews.InsertReviewRow | lib/actions/reviews.ts:29-35 | The row is appended, its id recorded as issued, keys stay unique, and the foreign key and `IdsIssued` are kept for a stored restaurant. |
| Reviews.InsertDishRows | lib/actions/reviews.ts:43-47 | The tagged dishes are appended and keys stay unique. |
| Reviews.PatchReviewRow | lib/actions/reviews.ts:58-63 | The reviews table becomes the patched rows; when the patched restaurant id is stored, the foreign key and `IdsIssued` are kept. |
| Reviews.UpsertDishRows | lib/actions/reviews.ts:67-74 | The upsert is all or nothing: an error throws with the dishes unchanged. |
| Reviews.UpsertDishesAndRecompute | lib/actions/reviews.ts:67-80 | The upsert runs only for a non-empty list, and a failed upsert throws before the recompute with nothing else changed; then the average of the given restaurant is recomputed and its page marked stale. |
| Reviews.UpdateReview | lib/actions/reviews.ts:57-80 | A missing row, a fault or a bad restaurant id throws with nothing changed. An empty dish list makes no upsert. The average is recomputed, and the page marked stale, for the restaurant the row now belongs to. An update within one restaurant keeps every average consistent. Every outcome keeps the foreign key and `IdsIssued`. |
| Reviews.DeleteReview | lib/actions/reviews.ts:82-102 | A failed read, a missing review or a failed delete changes nothing. Otherwise the review is gone and its restaurant is recomputed and invalidated, keeping every average consistent. Every outcome keeps the foreign key and `IdsIssued`. |
| Reviews.ReviewsOf | lib/actions/reviews.ts:13-23 | Exactly the restaurant's reviews, each once, newest first. |
| Reviews.WithRelations | lib/actions/reviews.ts:15-20 | Each review, in order, gets exactly the dishes whose review id is its own and exactly the URLs of the photos whose review id is its own. |
| Reviews.GetReviewsByRestaurantId | lib/actions/reviews.ts:12-26 | A fault throws. Otherwise every review of the restaurant appears and nothing else does, once each (the length is the number of its reviews), newest first, each with exactly its own dishes and photo URLs. |
| Restaurants.Summaries | lib/actions/restaurants.ts:29-38 | Each row is mapped to its summary, in order. |
| Restaurants.GetRestaurants | lib/actions/restaurants.ts:8-39 | A fault throws the fixed message. Otherwise every restaurant appears as its summary, the list has the table's length and is newest first, and every entry comes from a row. |
| Restaurants.NestedDishes | lib/actions/restaurants.ts:90-96 | Exactly the review's dishes, each tagged with the review id. |
| Types.ReviewPhotos | lib/actions/restaurants.ts:97 | Exactly the URLs of the review's photos. |
| Restaurants.NestedReview | lib/actions/restaurants.ts:84-98 | Each column is copied, with the requested restaurant id. |
| Restaurants.Detail | lib/actions/restaurants.ts:76-102 | The summary plus the restaurant's reviews, nested, in table order. |
| Restaurants.GetRestaurantById | lib/actions/restaurants.ts:42-103 | PGRST116 answers null and any other error throws. A found restaurant has the id, and its nested reviews and dishes belong to it. |
| Restaurants.GetRestaurantByIdFound | lib/actions/restaurants.ts:67-70 | Under the primary key the answer is null exactly when no row has the id. |
| Restaurants.DetailReviewsAreRatings | lib/actions/restaurants.ts:84-98 | The nested reviews carry exactly the restaurant's ratings, in order. |
| Restaurants.NewRestaurant | lib/actions/restaurants.ts:106-120 | The new row has an id that is neither taken nor handed out before, the given columns and no average. |
| Restaurants.CreateKeepsConsistent | lib/actions/restaurants.ts:106-130 | A new restaurant under an id never handed out keeps every average right, and `IdsIssued` holds once its id is recorded. |
| Restaurants.AppendKeepsAverages | lib/actions/restaurants.ts:106-130 | Appending a restaurant without reviews keeps every average right. |
| Restaurants.NoReviewsOfNewRestaurant | lib/actions/restaurants.ts:106-130 | An id never handed out has no ratings, when every review names an issued restaurant id. |
| Restaurants.AppendKeepsReferences | lib/actions/restaurants.ts:106-130 | Adding a restaurant keeps every review's restaurant present. |
| Restaurants.CreateRestaurant | lib/actions/restaurants.ts:106-130 | A fault throws with nothing changed. Otherwise the row is appended, its id recorded as issued, `/` is marked stale and the new id is returned. `AveragesConsistent` with `IdsIssued`, and the foreign key, are kept. |
| Restaurants.AppendRestaurant | lib/actions/restaurants.ts:108-118 | The row is appended, its id recorded as issued, keys stay unique and the invariants are kept. |
| Restaurants.UpdatedRestaurants | lib/actions/restaurants.ts:133-150 | Only the row with the id changes, and only in the columns given; the average, owner and timestamp never change. |
| Restaurants.UpdateKeepsConsistent | lib/actions/restaurants.ts:133-157 | An update keeps every average right, every review referenced and every id issued. |
| Restaurants.UpdateRestaurant | lib/actions/restaurants.ts:133-157 | A fault throws. Otherwise the rows are updated, the restaurant's page and `/` are marked stale, and the invariants are kept. |
| Restaurants.DeleteRestaurantKeepsConsistent | lib/actions/restaurants.ts:160-169 | Deleting a restaurant keeps every remaining average right. |
| Restaurants.DeleteRestaurant | lib/actions/restaurants.ts:160-169 | A fault throws. Otherwise no row has the id any more, an unknown id changes nothing, `/` is marked stale, and averages stay consistent. `IdsIssued` is kept: the id stays issued, so no later restaurant takes over the reviews left behind. |
| Favorites.NewFavorite | lib/actions/favorites.ts:45-52 | The new row has a fresh id and the given pair. |
| Favorites.InsertFavoriteError | lib/actions/favorites.ts:45-55 | A stored pair is refused with 23505. An accepted insert names a new pair and an existing restaurant. |
| Favorites.AddFavoriteUnique | lib/actions/favorites.ts:45-63 | Adding keeps the ids and the pair unique. |
| Favorites.AddFavoriteIdempotent | lib/actions/favorites.ts:45-63 | Adding the same pair again leaves the table as it is. |
| Favorites.RemovedFavorites | lib/actions/favorites.ts:66-76 | Exactly the rows of other pairs remain; an absent pair changes nothing. |
| Favorites.IsFavorite | lib/actions/favorites.ts:79-93 | An error answers false, and true means the pair is stored. |
| Favorites.IsFavoriteExactly | lib/actions/favorites.ts:79-93 | Under the unique constraint the answer is exactly whether the pair is stored. |
| Favorites.IsFavoriteAfterAdd | lib/actions/favorites.ts:45-93 | After an add the pair is a favourite. |
| Favorites.IsFavoriteAfterRemove | lib/actions/favorites.ts:66-93 | After a remove it is not. |
| Favorites.AddFavorite | lib/actions/favorites.ts:45-63 | A duplicate returns normally with nothing changed or marked. Any other error throws the fixed message. Success adds the row and marks the favourites and restaurant pages stale. |
| Favorites.InsertFavorite | lib/actions/favorites.ts:46-52 | The accepted insert, with keys kept unique. |
| Favorites.AddFavoriteTwice | lib/actions/favorites.ts:45-63 | Two adds of the same pair both return normally and leave exactly one row for it. |
| Favorites.RemoveFavorite | lib/actions/favorites.ts:66-76 | A fault throws the fixed message. Otherwise the pair's row is deleted and both pages are marked stale. |
| Favorites.GetFavorites | lib/actions/favorites.ts:8-42 | A fault throws the fixed message. A returned list has one summary per favourite row of the user, in order, each the summary of a stored restaurant with the favourite's restaurant id. |
| Favorites.GetFavoritesReturns | lib/actions/favorites.ts:32-41 | With referential integrity the list is always returned. |
| Users.NewProfile | lib/actions/auth.ts:53-58 | The registration profile is an admin exactly when the e-mail contains "admin". |
| Users.ProfileReadError | lib/actions/users.ts:9-18 | No error only when the row exists. |
| Users.GetUserProfile | lib/actions/users.ts:9-18 | A fault is rethrown and a missing row throws PGRST116. A returned profile is the stored row with the id. |
| Users.GetUserProfileFound | lib/actions/users.ts:9-18 | Under the primary key it returns exactly when the row exists. |
| Users.PatchProfiles | lib/actions/users.ts:20-30 | Only the row with the id changes, and it is patched. |
| Users.ApplyProfilePatchFields | lib/actions/users.ts:20-30 | A patch sets the columns it names and keeps the others, the id and the timestamp. |
| Users.UpdateUserProfile | lib/actions/users.ts:20-30 | An error throws with nothing changed. Otherwise the row is patched and the patched row returned. |
| Users.Embedded | lib/actions/users.ts:32-51 | An embedded restaurant is the stored one with the favourite's restaurant id. |
| Users.EntryRows | lib/actions/users.ts:32-51 | The favourite rows of the entries, in order. |
| Users.GetUserFavorites | lib/actions/users.ts:32-51 | A fault is rethrown. Otherwise exactly the user's favourite rows, each once, newest first, and each entry embeds what `Embedded` gives for its row, so `EmbeddedExactly` applies to it. |
| Users.EmbeddedExactly | lib/actions/users.ts:32-51 | The restaurant is embedded exactly when it exists. |
| Users.AddFavorite | lib/actions/users.ts:53-65 | Every error, the duplicate included, is thrown with nothing changed. Success appends and returns the new row. |
| Users.RemoveFavorite | lib/actions/users.ts:67-75 | A fault is rethrown. Otherwise the pair's row is deleted. |
| Photos.StorageKey | lib/actions/photos.ts:12-14 | The key is `userId/token.ext`. The extension is the text after the last dot of the name: a dot-free suffix preceded by a dot. A name without a dot is its own extension. |
| Photos.PublicUrl | lib/actions/photos.ts:22-24 | `getPublicUrl` gives `{storage}/storage/v1/object/public/photos/{key}`. |
| Photos.RemovalPath | lib/actions/photos.ts:87-88 | As written: when some segment is "photos", the path begins with "photos"; when none is, `slice(-1)` leaves the last segment. |
| Photos.ObjectKeyOfUrl | lib/actions/photos.ts:87-88 | The corrected extraction: a URL without a "photos" segment is its own key; `ObjectKeyRoundTrip` gives the key of a public URL. |
| Photos.PhotoPaths | lib/actions/photos.ts:39-44 | The restaurant page when its id is truthy, the review page when its id is, and nothing else. |
| Photos.RemovalPathOfPublicUrl | lib/actions/photos.ts:87-88 | As written, the removal path of an uploaded photo's URL is "photos/" plus its key, which is never the key. |
| Photos.ObjectKeyRoundTrip | lib/actions/photos.ts:22-24 | Reading the key after the bucket segment of a public URL gives back the uploaded key. |
| Photos.UploadError | lib/actions/photos.ts:16-20 | An accepted upload has a key the bucket does not hold. |
| Photos.NewPhoto | lib/actions/photos.ts:26-35 | The new row has a fresh id and the URL, owner and ids given. |
| Photos.PhotoInsertError | lib/actions/photos.ts:26-37 | An accepted insert references an existing restaurant and review. |
| Photos.PhotoPathsExactly | lib/actions/photos.ts:39-44 | The restaurant page is marked exactly when its id is truthy, and the review page exactly when its id is. Nothing else is marked. |
| Photos.UploadPhoto | lib/actions/photos.ts:11-47 | A failed upload throws with nothing stored. A failed insert leaves the object in the bucket. Success stores the object under its key and records its public URL, returns the row and marks the pages. |
| Photos.InsertPhoto | lib/actions/photos.ts:26-44 | The insert and the invalidation, or the store error with nothing recorded. |
| Photos.PutObject | lib/actions/photos.ts:16-20 | The object is stored under its key. |
| Photos.RecordPhoto | lib/actions/photos.ts:26-44 | The row is appended and the paths are marked. |
| Photos.NewestFirst | lib/actions/photos.ts:49-61 | Exactly the matching photos, each once, newest first. |
| Photos.GetPhotosByRestaurantId | lib/actions/photos.ts:49-61 | A fault is rethrown. Otherwise exactly the restaurant's photos, each once (the length is their number), newest first. |
| Photos.GetPhotosByReviewId | lib/actions/photos.ts:63-75 | A fault is rethrown. Otherwise exactly the review's photos, each once (the length is their number), newest first. |
| Photos.PhotoReadError | lib/actions/photos.ts:79-85 | No error only when the row exists. |
| Photos.DeletePhoto | lib/actions/photos.ts:78-109 | A failed read or removal changes nothing. Otherwise the bucket loses the as-written path `RemovalPath` of the URL before the row is deleted, so a failed delete keeps the row. Success drops the row and marks its pages. |
| Photos.DeletePhotoByObjectKey | lib/actions/photos.ts:78-109 | The same steps and outcomes, except that the bucket loses the object key of the URL, the key the upload stored. |
| Photos.DeletePhotoRemoving | lib/actions/photos.ts:78-109 | The steps of `deletePhoto` for a given bucket path: each failure point with its unchanged state, then removal, row delete and page marking. |
| Photos.RemoveObject | lib/actions/photos.ts:90-94 | The key leaves the bucket. |
| Photos.DropPhoto | lib/actions/photos.ts:96-108 | The row is deleted and the paths are marked. |
| Photos.DeleteLeavesUploadedObject | lib/actions/photos.ts:87-92 | As written, removing the computed path leaves the uploaded object in the bucket. |
| Photos.DeleteByObjectKeyRemovesUpload | lib/actions/photos.ts:87-92 | Removing the recovered key removes the uploaded object. |
| Forms.UploadCalls | app/add/page.tsx:36-38 | One upload per file, in order, each with the same owner ids. |
| Forms.UploadCallsOfFile | components/review-form.tsx:62-65 | Every upload call names one of the files and the given ids. |
| Forms.UploadEach | app/add/page.tsx:36-38 | Every upload is issued, and the whole succeeds exactly when none fails. |
| Forms.PreviewUrls | components/review-form.tsx:94-103 | One preview per new file, in order. |
| Forms.WithoutIndexAligned | components/review-form.tsx:105-111 | Dropping one position from both lists keeps each file beside its own preview. |
| Forms.AppendAligned | components/review-form.tsx:94-103 | Appending keeps each file beside its own preview. |
| ReviewForm.SubmitError | components/review-form.tsx:39-52 | The checks pass exactly for a signed-in user with a rating and a non-blank message. Otherwise the first failing check gives its message. |
| ReviewForm.SubmitCalls | components/review-form.tsx:36-74 | A failed check calls nothing. Otherwise `createReview` comes first, then one upload per photo for the new review unless the creation threw. |
| ReviewForm.SubmitCallsPassed | components/review-form.tsx:55-67 | A passing submission's calls are those of its sending part. |
| ReviewForm.SubmitUploadsEachPhotoOnce | components/review-form.tsx:62-65 | After a successful creation each photo is uploaded once, for the new review only. |
| ReviewForm.NewDish | components/review-form.tsx:76-88 | The name is trimmed, and the price is the parsed text when some was typed, absent otherwise. |
| ReviewForm.ReviewFormState.constructor | components/review-form.tsx:24-34 | The initial state. |
| ReviewForm.ReviewFormState.SetRating | components/review-form.tsx:127 | Only the rating changes. |
| ReviewForm.ReviewFormState.SetText | components/review-form.tsx:137 | Only the typed fields change. |
| ReviewForm.ReviewFormState.HandleSubmit | components/review-form.tsx:36-74 | The calls made, the error shown and whether the form closes, for every outcome. The busy flag is cleared on every path after the checks pass and kept when a check fails, and the lists and fields are untouched. |
| ReviewForm.ReviewFormState.Send | components/review-form.tsx:55-73 | The same for the part after the checks. |
| ReviewForm.ReviewFormState.AddDish | components/review-form.tsx:76-88 | A non-blank dish is appended and both inputs cleared; a blank one changes nothing. |
| ReviewForm.ReviewFormState.RemoveDish | components/review-form.tsx:90-92 | Only the dish at the index is dropped, and the rest keep their order. |
| ReviewForm.ReviewFormState.HandlePhotoUpload | components/review-form.tsx:94-103 | The files and their previews are appended together. |
| ReviewForm.ReviewFormState.RemovePhoto | components/review-form.tsx:105-111 | The file and its preview are dropped together. |
| RestaurantForm.InitialPriceTier | components/restaurant-form.tsx:38 | The given tier unless it is absent or 0, else 2; never 0. |
| RestaurantForm.FormErrorChecks | components/restaurant-form.tsx:43-64 | A submission passes exactly when neither field is blank, and a blank name is reported first. |
| RestaurantForm.RestaurantFormState.constructor | components/restaurant-form.tsx:34-41 | The fields come from the initial data, and the error from the prop. |
| RestaurantForm.RestaurantFormState.SetText | components/restaurant-form.tsx:34-41 | Only the name and address change. |
| RestaurantForm.RestaurantFormState.SetPriceTier | components/restaurant-form.tsx:34-41 | Only the tier changes. |
| RestaurantForm.RestaurantFormState.HandleSubmit | components/restaurant-form.tsx:43-64 | A failed check sets its message and submits nothing. Otherwise the error is cleared and the untrimmed fields, the tier and the files are submitted. |
| RestaurantForm.RestaurantFormState.Accept | components/restaurant-form.tsx:58-63 | The submission of the passing branch. |
| RestaurantForm.RestaurantFormState.HandlePhotoUpload | components/restaurant-form.tsx:66-75 | The files and their previews are appended together. |
| RestaurantForm.RestaurantFormState.RemovePhoto | components/restaurant-form.tsx:77-83 | The file and its preview are dropped together. |
| AddPage.AddCalls | app/add/page.tsx:17-47 | No user means no calls. Otherwise `createRestaurant` comes first, then one upload per photo for the new restaurant unless the creation threw. |
| AddPage.AddUploadsEachPhoto | app/add/page.tsx:36-38 | Each photo is uploaded once, for the user and the new restaurant; no photos means no uploads. |
| AddPage.AddPageState.constructor | app/add/page.tsx:11-15 | The initial state. |
| AddPage.AddPageState.HandleSubmit | app/add/page.tsx:17-47 | Without a user only the error is set. After a successful creation and uploads the page opens the new restaurant and stays busy. On any throw it shows the failure message and is no longer busy. |
| Search.FilteredRestaurants | app/search/page.tsx:51-67 | A venue is kept exactly when the text, price and rating filters all accept it. |
| Search.FilteredIsSubsequence | app/search/page.tsx:51-67 | The result keeps the list order. |
| Search.EmptyQueryMatches | app/search/page.tsx:53-58 | The empty query matches every venue. |
| Search.SearchIgnoresQueryCase | app/search/page.tsx:53-58 | A query and its lowercased form match the same venues. |
| Search.NoFilterKeepsAll | app/search/page.tsx:51-67 | With no query and no filters, every venue is listed in order. |
| Search.UnratedExcluded | app/search/page.tsx:62-64 | A minimum rating excludes unrated venues. |
| Search.TogglePrice | app/search/page.tsx:43-49 | A chosen tier is removed and nothing else is; an unchosen tier is appended. |
| Search.TogglePriceNoDuplicates | app/search/page.tsx:43-49 | Toggling never chooses a tier twice. |
| Search.TogglePriceTwice | app/search/page.tsx:43-49 | Toggling twice restores the chosen tiers. |
| Search.ActiveFilterCount | app/search/page.tsx:102 | The badge shows zero exactly when no filter is active, and counts one per tier plus one for a minimum rating. |
| Search.SearchPage.constructor | app/search/page.tsx:20-24 | The initial state. |
| Search.SearchPage.SetSearchQuery | app/search/page.tsx:83 | Only the query changes. |
| Search.SearchPage.ClearSearch | app/search/page.tsx:34-36 | Only the query is emptied. |
| Search.SearchPage.ClearFilters | app/search/page.tsx:38-41 | No filter remains active, and the query stays. |
| Search.SearchPage.TogglePriceFilter | app/search/page.tsx:43-49 | The tier's membership flips, the list stays free of duplicates, and nothing else changes. |
| Search.SearchPage.SetRatingFilter | app/search/page.tsx:20-24 | Only the minimum rating changes. |
| Search.SearchPage.FinishLoading | app/search/page.tsx:26-32 | Only the loading flag is cleared. |
| Home.SortedRestaurants | app/page.tsx:40-46 | A permutation of the list, non-increasing in creation time or in rating (missing read as 0). |
| Home.NewestFirst | app/page.tsx:43 | Under "newest" no earlier venue precedes a later one. |
| Home.UnratedLast | app/page.tsx:45 | Under "rating" no venue with a positive average follows an unrated one. |
| Home.HomePage.constructor | app/page.tsx:15-20 | The initial state. |
| Home.HomePage.Mount | app/page.tsx:22-38 | The fetched list is stored, or the error set; loading ends either way. |
| Home.HomePage.SetSortBy | app/page.tsx:40-46 | Only the mode changes, never the fetched list. |
| StarRating.DisplayLevel | components/star-rating.tsx:30-37 | The hovered star while one is hovered, else the rating. |
| StarRating.StarFills | components/star-rating.tsx:17-37 | Star i is filled exactly when the displayed level reaches it. |
| StarRating.FilledCount | components/star-rating.tsx:17-37 | The count of stars a level fills, between 0 and 5. |
| StarRating.FilledStarsArePrefix | components/star-rating.tsx:17-37 | The filled stars are exactly the first ones, as many as the level fills. |
| StarRating.StarRatingState.constructor | components/star-rating.tsx:13 | Nothing is hovered at first. |
| StarRating.StarRatingState.Click | components/star-rating.tsx:22 | A click reports exactly its star's rating, which is between 1 and 5. |
| StarRating.StarRatingState.MouseEnter | components/star-rating.tsx:23 | Hovering sets the hovered star. |
| StarRating.StarRatingState.MouseLeave | components/star-rating.tsx:24 | Leaving clears it. |
| StarRating.HoverPreview | components/star-rating.tsx:23-37 | While star k is hovered exactly the first k stars are filled, whatever the rating; otherwise the rating's. |
| AdminRoute.Redirect | components/admin-protected-route.tsx:15-23 | No redirect while loading. Without a user it goes to the login page, and for a non-admin to the home page. It stays put exactly for an admin or while loading. |
| AdminRoute.Render | components/admin-protected-route.tsx:25-37 | The spinner exactly while loading, and the children exactly for a loaded admin. |
| AdminRoute.AdminNeverRedirected | components/admin-protected-route.tsx:15-37 | An admin is never redirected, and a redirected user sees nothing. |
| BottomNav.NextVisible | components/bottom-navigation.tsx:21-32 | The bar hides exactly when scrolling down past 100 pixels. |
| BottomNav.HiddenPaths | components/bottom-navigation.tsx:39-41 | A path hides the bar exactly when it is the login or registration page or extends `/admin`; the home, search, favourites and profile pages show it. |
| BottomNav.AccountItem | components/bottom-navigation.tsx:69-74 | The admin page for an admin, the profile page otherwise, active on either page. |
| BottomNav.NavItems | components/bottom-navigation.tsx:54-74 | Four items. Each of the first three is active exactly on its own page, and the last is the account item. |
| BottomNav.AccountActiveWhenShown | components/bottom-navigation.tsx:39-74 | Where the bar is shown, the account item is active exactly on the profile page. |
| BottomNav.AdminItemHidesBar | components/bottom-navigation.tsx:39-74 | An admin's account item leads to a page where the bar is hidden. |
| BottomNav.BottomNavigation.constructor | components/bottom-navigation.tsx:18-19 | Visible, at the top. |
| BottomNav.BottomNavigation.HandleScroll | components/bottom-navigation.tsx:21-32 | The visibility decision, and the last position updated. |
| BottomNav.ScrollUpShows | components/bottom-navigation.tsx:25-29 | Scrolling up, or staying within the threshold, shows the bar. |

## Behaviour kept as written

- `createReview` throws when the dish insert fails (lib/actions/reviews.ts:47). The review row
  inserted just before stays stored without its dishes, and the average is neither recomputed nor
  invalidated.
- `createReview` checks neither the rating nor the message (lib/actions/reviews.ts:28-35). The
  only checks are the review form's, for a rating of 0 and a blank message
  (components/review-form.tsx:39-52), and the rating can only come from the five stars.
- `updateRestaurant` and `deleteRestaurant` with an id no row has update or delete nothing and
  return normally (lib/actions/restaurants.ts:133-169).
- `updateReview` recomputes only the restaurant the updated row belongs to
  (lib/actions/reviews.ts:76-78). When the patch moves a review to another restaurant, the old
  restaurant's average is not recomputed, so `Reviews.UpdateReview` promises consistency only for
  updates within one restaurant.
- The favourite actions in lib/actions/users.ts rethrow the unique violation; the ones in
  lib/actions/favorites.ts swallow it. Both are modelled.

## Left out

- Reviews.UpdateReview: when the patch moves a review to another restaurant, the old restaurant keeps its now stale average. This is what the code does, so the contract does not promise consistency for that case.
- Reviews.Average: the average is the exact quotient of the sum by the count, as a real. The source divides JavaScript doubles, whose rounding is not modelled.
- Reviews.UpdateReview: the dish list is taken as whole dish rows with their ids. The source passes `Partial<Dish>[]` to `upsert`; a dish without an id, which the store would insert under a generated id, and a dish with only some columns are not modelled.
- Restaurants.DeleteRestaurant: the reviews of the deleted row stay (see the cascades below), so the contract keeps `IdsIssued` but not `ReviewsReferenced`.
- Dish, photo and favourite ids are fresh among the current rows of their table only. No row refers to them, so a reused one changes nothing the model states.
- Foreign keys on `user_id`, and the cascading deletes of the database, are not modelled. A deleted restaurant's reviews, photos and favourites stay in their tables.
- Timestamps are integers, not ISO strings. The ordering uses only their order.
- The embedded profile (`profiles (name)`) in photo and review listings is not modelled.
- Strings.ToLower folds only A–Z, the Latin-1 capitals and the Hungarian double-acute capitals. Full Unicode case mapping is not modelled.
- `encodeURI` and the URL encoding done by the storage client are not modelled.
- `Math.random()` in the storage key is the `token` parameter.
- ReviewPatch: `updateReview` takes `Partial<Review>`, and the model's patch leaves out `id` and `created_at`, which a caller could also pass.
- `updateUserProfile` takes `Partial<Profile>`. The model's patch leaves out `id` and `created_at`, which a caller could also pass.
- The database's check on `price_tier` is a store fault, not a modelled constraint.
- `Number.parseFloat` is an abstract function parameter. A NaN price is not modelled.
- `Promise.all` over the uploads is a sequential loop that issues every upload and fails when any fails. Their concurrency and order of completion are not modelled.
- Authentication and sessions are left out. The signed-in user is a parameter, and registration is modelled only for the admin flag of its profile.
- The static restaurant list the search page filters (lib/data) is an input sequence.
- Console logging is not modelled.
- The loading timers of the search page are the `FinishLoading` method, not a delay.
- The array sort of the home page works on a copy. It is the value function `Home.SortedRestaurants`; sort stability is not stated.
- `URL.createObjectURL` is a function parameter. `revokeObjectURL` and the animations are not modelled.
- The `isSubmitting` prop that disables buttons, the central add button's link, and rendering in general are not modelled.
- Scroll positions are integers.
- The restaurant form's `error` prop is read only when the form mounts, as its `useState` initialiser does.
- The review form calls `createReview` with five separate arguments, while the action takes a review object and a dish list. The calls are recorded in a log, so this mismatch is not resolved.
- `formatDate` and `cn` in lib/utils.ts are presentation helpers and are not modelled.

## Findings

| source | as written | input that shows it | evidently intended | confidence | as-written member | corrected member |
|---|---|---|---|---|---|---|
| lib/actions/photos.ts:87-88 | The removal path starts at the URL's "photos" segment, so it is "photos/" + key. The bucket holds the object under the key alone, so the removal names an object that does not exist, and the upload stays in the bucket. | Any URL `uploadPhoto` made, for example `https://x.supabase.co/storage/v1/object/public/photos/u1/0.5.jpg`, gives the removal path `photos/u1/0.5.jpg` instead of `u1/0.5.jpg`. | Remove the key after the "photos" segment (`indexOf('photos') + 1`). | high (not executed) | Photos.RemovalPathOfPublicUrl, Photos.DeleteLeavesUploadedObject, with Photos.RemovalPath used by Photos.DeletePhoto | Photos.ObjectKeyRoundTrip, Photos.DeleteByObjectKeyRemovesUpload, with Photos.ObjectKeyOfUrl used by Photos.DeletePhotoByObjectKey |
