/** The photo actions (lib/actions/photos.ts): upload to the `photos` bucket and record the
    photo, list a restaurant's or a review's photos, and delete a photo. */
module Photos {
  import opened Wrappers
  import opened Seqs
  import opened Sorting
  import opened Strings
  import opened Errors
  import opened Store
  import opened Types

  /** A failure the storage service may report, by its message. */
  type StorageFault = Option<string>

  const ExistingObjectMessage: string := "The resource already exists"
  /** The segments `getPublicUrl` puts between the project URL and the object key; the last one
      is the bucket's name. */
  const PublicPath: seq<string> := ["storage", "v1", "object", "public", "photos"]
  const BucketSegment: string := "photos"

  function PhotoCreated(p: PhotoRow): real { p.createdAt as real }

  // ---------------------------------------------------------------------------------------------
  // Object keys and URLs

  /** `${userId}/${Math.random()}.${file.name.split('.').pop()}`, the random number given as
      `token`. The extension is the text after the last "." of the name, or the whole name when
      it has no ".". */
  function StorageKey(userId: Id, token: string, name: string): (key: string)
    ensures exists ext ::
      && key == userId + "/" + token + "." + ext
      && '.' !in ext && |ext| <= |name| && name[|name| - |ext|..] == ext
      && ('.' !in name ==> ext == name)
      && ('.' in name ==> |ext| < |name| && name[|name| - |ext| - 1] == '.')
  {
    LastPartIsSuffix(name, '.');
    userId + "/" + token + "." + LastPart(name, '.')
  }

  /** `{base}/{path joined by "/"}/{key}`. */
  function UrlThrough(base: string, path: seq<string>, key: string): string {
    base + ['/'] + (Join(path, '/') + ['/'] + key)
  }

  /** `getPublicUrl(key)` of the `photos` bucket: `{storageUrl}/storage/v1/object/public/photos/{key}`. */
  function PublicUrl(storageUrl: string, key: string): (url: string)
    ensures url == storageUrl + "/storage/v1/object/public/photos/" + key
  {
    PublicPathJoined();
    UrlThrough(storageUrl, PublicPath, key)
  }

  lemma PublicPathJoined()
    ensures Join(PublicPath, '/') == "storage/v1/object/public/photos"
  {
    assert Join(["photos"], '/') == "photos";
    JoinCons("public", ["photos"], '/');
    JoinCons("object", ["public", "photos"], '/');
    JoinCons("v1", ["object", "public", "photos"], '/');
    JoinCons("storage", ["v1", "object", "public", "photos"], '/');
  }

  /** The path `deletePhoto` asks the bucket to remove, as written: the URL's "/"-separated
      segments from the first one equal to "photos" onward, joined by "/". When no segment is
      "photos", `indexOf` gives -1 and `slice(-1)` keeps the last segment. */
  function RemovalPath(url: string): (path: string)
    ensures BucketSegment in Split(url, '/') ==>
      |path| >= |BucketSegment| && path[..|BucketSegment|] == BucketSegment
    ensures BucketSegment !in Split(url, '/') ==> path == LastPart(url, '/')
  {
    var parts := Split(url, '/');
    var tail := SliceFrom(parts, IndexOf(parts, BucketSegment));
    assert BucketSegment in parts ==> tail[0] == BucketSegment;
    assert BucketSegment !in parts ==> tail == [parts[|parts| - 1]];
    Join(tail, '/')
  }

  /** The object key a public URL names: the segments after the bucket segment. */
  function ObjectKeyOfUrl(url: string): (key: string)
    ensures BucketSegment !in Split(url, '/') ==> key == url
  {
    var parts := Split(url, '/');
    JoinSplit(url, '/');
    Join(SliceFrom(parts, IndexOf(parts, BucketSegment) + 1), '/')
  }

  /** Segments without "/" that end with the bucket's, which occurs nowhere before. */
  ghost predicate BucketPath(path: seq<string>) {
    && |path| >= 1 && path[|path| - 1] == BucketSegment
    && (forall i :: 0 <= i < |path| - 1 ==> path[i] != BucketSegment)
    && (forall i :: 0 <= i < |path| ==> '/' !in path[i])
  }

  lemma PublicPathIsBucketPath()
    ensures BucketPath(PublicPath)
    ensures forall p :: p in PublicPath ==> '/' !in p
  {
  }

  /** The parts after the first separator of `middle + ['/'] + b`, when `middle` joins `path`. */
  lemma SplitJoined(path: seq<string>, b: string)
    requires |path| >= 1 && forall p :: p in path ==> '/' !in p
    ensures Split(Join(path, '/') + ['/'] + b, '/') == path + Split(b, '/')
  {
    SplitJoin(path, '/');
    SplitConcat(Join(path, '/'), b, '/');
  }

  /** The segments of `UrlThrough(base, path, key)`: the base's, the path, then the key's. */
  lemma SplitThrough(base: string, path: seq<string>, key: string)
    requires |path| >= 1 && forall p :: p in path ==> '/' !in p
    ensures Split(UrlThrough(base, path, key), '/') == Split(base, '/') + path + Split(key, '/')
  {
    var rest := Join(path, '/') + ['/'] + key;
    SplitJoined(path, key);
    SplitConcat(base, rest, '/');
    assert Split(base + ['/'] + rest, '/') == Split(base, '/') + (path + Split(key, '/'));
  }

  /** The first "photos" segment of `u + path + k`, when `u` has none and `path` ends with it. */
  lemma {:induction false} FirstBucketSegment(u: seq<string>, path: seq<string>, k: seq<string>)
    requires BucketSegment !in u
    requires |path| >= 1 && path[|path| - 1] == BucketSegment
    requires forall i :: 0 <= i < |path| - 1 ==> path[i] != BucketSegment
    ensures IndexOf(u + path + k, BucketSegment) == |u| + |path| - 1
    ensures (u + path + k)[|u| + |path| - 1..] == [BucketSegment] + k
  {
    var parts := u + path + k;
    assert forall j :: 0 <= j < |u| ==> parts[j] == u[j];
    assert forall j :: |u| <= j < |u| + |path| ==> parts[j] == path[j - |u|];
    assert parts[|u| + |path| - 1] == BucketSegment;
    assert forall j :: 0 <= j < |u| + |path| - 1 ==> parts[j] != BucketSegment;
    assert parts[|u| + |path| - 1..] == [BucketSegment] + k;
  }

  /** The removal path of a URL whose segments are `u + path + k`. */
  lemma RemovalPathOfParts(url: string, u: seq<string>, path: seq<string>, k: seq<string>)
    requires Split(url, '/') == u + path + k
    requires BucketPath(path) && BucketSegment !in u && |k| >= 1
    ensures RemovalPath(url) == BucketSegment + ['/'] + Join(k, '/')
  {
    var parts := Split(url, '/');
    FirstBucketSegment(u, path, k);
    var tail := SliceFrom(parts, |u| + |path| - 1);
    assert tail == [BucketSegment] + k;
    JoinCons(BucketSegment, k, '/');
  }

  /** The object key of a URL whose segments are `u + path + k`. */
  lemma ObjectKeyOfParts(url: string, u: seq<string>, path: seq<string>, k: seq<string>)
    requires Split(url, '/') == u + path + k
    requires BucketPath(path) && BucketSegment !in u
    ensures ObjectKeyOfUrl(url) == Join(k, '/')
  {
    var parts := Split(url, '/');
    FirstBucketSegment(u, path, k);
    var i := |u| + |path| - 1;
    assert parts[i + 1..] == ([BucketSegment] + k)[1..] == k;
  }

  /** As written, the removal path of an uploaded photo is the key with the bucket name in front,
      so it never names the object that was uploaded. */
  lemma RemovalPathOfPublicUrl(storageUrl: string, key: string)
    requires BucketSegment !in Split(storageUrl, '/')
    ensures RemovalPath(PublicUrl(storageUrl, key)) == BucketSegment + "/" + key
    ensures RemovalPath(PublicUrl(storageUrl, key)) != key
  {
    PublicPathIsBucketPath();
    SplitThrough(storageUrl, PublicPath, key);
    RemovalPathOfParts(PublicUrl(storageUrl, key), Split(storageUrl, '/'), PublicPath, Split(key, '/'));
    JoinSplit(key, '/');
  }

  /** The intended path: the key `uploadPhoto` stored is recovered from its public URL. */
  lemma ObjectKeyRoundTrip(storageUrl: string, key: string)
    requires BucketSegment !in Split(storageUrl, '/')
    ensures ObjectKeyOfUrl(PublicUrl(storageUrl, key)) == key
  {
    PublicPathIsBucketPath();
    SplitThrough(storageUrl, PublicPath, key);
    ObjectKeyOfParts(PublicUrl(storageUrl, key), Split(storageUrl, '/'), PublicPath, Split(key, '/'));
    JoinSplit(key, '/');
  }

  // ---------------------------------------------------------------------------------------------
  // Upload

  /** What `upload(key, file)` answers: the bucket refuses a key it already holds. */
  function UploadError(blobs: map<string, seq<bv8>>, key: string, fault: StorageFault): (e: StorageFault)
    ensures e.None? ==> fault.None? && key !in blobs
  {
    if fault.Some? then fault else if key in blobs then Some(ExistingObjectMessage) else None
  }

  /** The row `insert({ url, user_id, restaurant_id, review_id })` stores. */
  function NewPhoto(photos: seq<PhotoRow>, url: string, userId: Id, restaurantId: Option<Id>,
                    reviewId: Option<Id>, now: Timestamp): (p: PhotoRow)
    ensures p.id !in Keys(photos, PhotoKey)
    ensures p.url == url && p.userId == userId && p.restaurantId == restaurantId && p.reviewId == reviewId
  {
    PhotoRow(FreshId(Keys(photos, PhotoKey)), restaurantId, reviewId, url, userId, now)
  }

  /** What the store answers to that insert: a fault, or a reference to a missing restaurant or
      review. */
  function PhotoInsertError(restaurants: seq<RestaurantRow>, reviews: seq<ReviewRow>,
                            restaurantId: Option<Id>, reviewId: Option<Id>, fault: Fault): (e: Option<PgError>)
    ensures e.None? ==>
      && fault.None?
      && (restaurantId.Some? ==> restaurantId.value in Keys(restaurants, RestaurantKey))
      && (reviewId.Some? ==> reviewId.value in Keys(reviews, ReviewKey))
  {
    if fault.Some? then fault
    else if restaurantId.Some? && restaurantId.value !in Keys(restaurants, RestaurantKey) then Some(ForeignKeyError("photos"))
    else if reviewId.Some? && reviewId.value !in Keys(reviews, ReviewKey) then Some(ForeignKeyError("photos"))
    else None
  }

  /** The pages `revalidatePath` marks after a photo change: the restaurant's when a restaurant id
      is truthy, the review's when a review id is. */
  function PhotoPaths(restaurantId: Option<Id>, reviewId: Option<Id>): (paths: set<string>)
    ensures Truthy(restaurantId) ==> RestaurantPath(restaurantId.value) in paths
    ensures Truthy(reviewId) ==> ReviewPath(reviewId.value) in paths
    ensures forall p :: p in paths ==>
      (Truthy(restaurantId) && p == RestaurantPath(restaurantId.value)) || (Truthy(reviewId) && p == ReviewPath(reviewId.value))
  {
    (if Truthy(restaurantId) then {RestaurantPath(restaurantId.value)} else {})
      + (if Truthy(reviewId) then {ReviewPath(reviewId.value)} else {})
  }

  /** The restaurant's page is marked iff its id is truthy, the review's iff its id is, and
      nothing else is. */
  lemma PhotoPathsExactly(restaurantId: Option<Id>, reviewId: Option<Id>)
    ensures Truthy(restaurantId) <==> RestaurantPath(restaurantId.GetOr("")) in PhotoPaths(restaurantId, reviewId)
    ensures Truthy(reviewId) <==> ReviewPath(reviewId.GetOr("")) in PhotoPaths(restaurantId, reviewId)
    ensures forall p :: p in PhotoPaths(restaurantId, reviewId) ==>
      (Truthy(restaurantId) && p == RestaurantPath(restaurantId.value)) || (Truthy(reviewId) && p == ReviewPath(reviewId.value))
  {
    forall a, b ensures RestaurantPath(a) != ReviewPath(b) {
      assert RestaurantPath(a)[3] == 's' && ReviewPath(b)[3] == 'v';
    }
  }

  /** `uploadPhoto`: store the file under a fresh key, then record its public URL. A storage
      failure throws before any row exists; a failed insert throws and leaves the object in the
      bucket; success returns the row and marks the restaurant's and the review's pages stale. */
  method UploadPhoto(db: Db, file: File, userId: Id, restaurantId: Option<Id>, reviewId: Option<Id>,
                     token: string, now: Timestamp, uploadFault: StorageFault, insertFault: Fault)
    returns (out: Outcome<PhotoRow>)
    requires db.Valid()
    modifies db`blobs, db`photos, db`stale
    ensures db.Valid()
    ensures var key := StorageKey(userId, token, file.name);
      var uploadErr := UploadError(old(db.blobs), key, uploadFault);
      && (uploadErr.Some? ==>
            && out == Threw(Error(uploadErr.value))
            && db.blobs == old(db.blobs) && db.photos == old(db.photos) && db.stale == old(db.stale))
      && (uploadErr.None? ==> db.blobs == old(db.blobs)[key := file.content])
    ensures var key := StorageKey(userId, token, file.name);
      var insertErr := PhotoInsertError(db.restaurants, db.reviews, restaurantId, reviewId, insertFault);
      UploadError(old(db.blobs), key, uploadFault).None? ==>
      && (insertErr.Some? ==>
            out == Threw(Postgrest(insertErr.value)) && db.photos == old(db.photos) && db.stale == old(db.stale))
      && (insertErr.None? ==>
            var row := NewPhoto(old(db.photos), PublicUrl(db.storageUrl, key), userId, restaurantId, reviewId, now);
            && out == Returned(row)
            && db.photos == old(db.photos) + [row]
            && db.stale == old(db.stale) + PhotoPaths(restaurantId, reviewId))
  {
    var key := StorageKey(userId, token, file.name);
    var uploadErr := UploadError(db.blobs, key, uploadFault);
    if uploadErr.Some? {
      return Threw(Error(uploadErr.value));
    }
    PutObject(db, key, file.content);
    assert db.photos == old(db.photos) && db.stale == old(db.stale);
    out := InsertPhoto(db, PublicUrl(db.storageUrl, key), userId, restaurantId, reviewId, now, insertFault);
  }

  /** The second half of `uploadPhoto`: insert the row for the stored object's URL, return it and
      mark its pages stale; a failed insert throws with no row and no page marked. */
  method InsertPhoto(db: Db, url: string, userId: Id, restaurantId: Option<Id>, reviewId: Option<Id>,
                     now: Timestamp, insertFault: Fault) returns (out: Outcome<PhotoRow>)
    requires db.Valid()
    modifies db`photos, db`stale
    ensures db.Valid()
    ensures var insertErr := PhotoInsertError(db.restaurants, db.reviews, restaurantId, reviewId, insertFault);
      && (insertErr.Some? ==>
            out == Threw(Postgrest(insertErr.value)) && db.photos == old(db.photos) && db.stale == old(db.stale))
      && (insertErr.None? ==>
            var row := NewPhoto(old(db.photos), url, userId, restaurantId, reviewId, now);
            && out == Returned(row)
            && db.photos == old(db.photos) + [row]
            && db.stale == old(db.stale) + PhotoPaths(restaurantId, reviewId))
  {
    var insertErr := PhotoInsertError(db.restaurants, db.reviews, restaurantId, reviewId, insertFault);
    if insertErr.Some? {
      return Threw(Postgrest(insertErr.value));
    }
    var row := NewPhoto(db.photos, url, userId, restaurantId, reviewId, now);
    RecordPhoto(db, row, PhotoPaths(restaurantId, reviewId));
    out := Returned(row);
  }

  /** `storage.from("photos").upload(key, file)` once the bucket has accepted it. */
  method PutObject(db: Db, key: string, content: seq<bv8>)
    requires db.Valid()
    modifies db`blobs
    ensures db.Valid()
    ensures db.blobs == old(db.blobs)[key := content]
  {
    db.blobs := db.blobs[key := content];
  }

  /** The accepted insert of a photo row, then `revalidatePath` for each of `paths`. */
  method RecordPhoto(db: Db, row: PhotoRow, paths: set<string>)
    requires db.Valid() && row.id !in Keys(db.photos, PhotoKey)
    modifies db`photos, db`stale
    ensures db.Valid()
    ensures db.photos == old(db.photos) + [row] && db.stale == old(db.stale) + paths
  {
    UniqueKeysAppend(db.photos, row, PhotoKey);
    db.photos := db.photos + [row];
    db.Revalidate(paths);
  }

  // ---------------------------------------------------------------------------------------------
  // Listing

  /** `.eq(column, id).order("created_at", { ascending: false })` over the photos. */
  function NewestFirst(photos: seq<PhotoRow>, column: PhotoRow -> Option<Id>, id: Id): (rows: seq<PhotoRow>)
    ensures |rows| == |Matching(photos, column, Some(id))|
    ensures forall p :: p in rows <==> p in photos && column(p) == Some(id)
    ensures forall i, j :: 0 <= i < j < |rows| ==> rows[i].createdAt >= rows[j].createdAt
  {
    var m := Matching(photos, column, Some(id));
    SortDescSpec(m, PhotoCreated);
    SortDescMembers(m, PhotoCreated);
    SortDesc(m, PhotoCreated)
  }

  /** `getPhotosByRestaurantId`: the restaurant's photos, newest first; a store error is thrown. */
  function GetPhotosByRestaurantId(photos: seq<PhotoRow>, restaurantId: Id, fault: Fault): (out: Outcome<seq<PhotoRow>>)
    ensures fault.Some? ==> out == Threw(Postgrest(fault.value))
    ensures fault.None? ==> out.Returned?
    ensures fault.None? ==> |out.value| == |Matching(photos, PhotoRestaurant, Some(restaurantId))|
    ensures fault.None? ==> forall p :: p in out.value <==> p in photos && p.restaurantId == Some(restaurantId)
    ensures fault.None? ==> forall i, j :: 0 <= i < j < |out.value| ==> out.value[i].createdAt >= out.value[j].createdAt
  {
    if fault.Some? then Threw(Postgrest(fault.value)) else Returned(NewestFirst(photos, PhotoRestaurant, restaurantId))
  }

  /** `getPhotosByReviewId`: the review's photos, newest first; a store error is thrown. */
  function GetPhotosByReviewId(photos: seq<PhotoRow>, reviewId: Id, fault: Fault): (out: Outcome<seq<PhotoRow>>)
    ensures fault.Some? ==> out == Threw(Postgrest(fault.value))
    ensures fault.None? ==> out.Returned?
    ensures fault.None? ==> |out.value| == |Matching(photos, PhotoReview, Some(reviewId))|
    ensures fault.None? ==> forall p :: p in out.value <==> p in photos && p.reviewId == Some(reviewId)
    ensures fault.None? ==> forall i, j :: 0 <= i < j < |out.value| ==> out.value[i].createdAt >= out.value[j].createdAt
  {
    if fault.Some? then Threw(Postgrest(fault.value)) else Returned(NewestFirst(photos, PhotoReview, reviewId))
  }

  // ---------------------------------------------------------------------------------------------
  // Delete

  /** What the `.single()` read of the photo answers. */
  function PhotoReadError(photos: seq<PhotoRow>, id: Id, fault: Fault): (e: Option<PgError>)
    ensures e.None? ==> fault.None? && Single(photos, PhotoKey, id).Some?
  {
    if fault.Some? then fault
    else if Single(photos, PhotoKey, id).None? then Some(NoRowError)
    else None
  }

  /** `deletePhoto`: read the photo, remove its object from the bucket, delete the row, then mark
      its pages stale. A failed read throws with nothing changed; a failed removal throws and keeps
      the row; a failed delete throws after the removal. As written, the path handed to the bucket
      is `RemovalPath` of the URL, which keeps the "photos" segment in front of the key, so the
      uploaded object stays (`DeleteLeavesUploadedObject`). */
  method DeletePhoto(db: Db, id: Id, readFault: Fault, removeFault: StorageFault, deleteFault: Fault)
    returns (out: Outcome<()>)
    requires db.Valid()
    modifies db`blobs, db`photos, db`stale
    ensures db.Valid()
    ensures var readErr := PhotoReadError(old(db.photos), id, readFault);
      readErr.Some? ==>
        && out == Threw(Postgrest(readErr.value))
        && db.blobs == old(db.blobs) && db.photos == old(db.photos) && db.stale == old(db.stale)
    ensures PhotoReadError(old(db.photos), id, readFault).None? && removeFault.Some? ==>
      && out == Threw(Error(removeFault.value))
      && db.blobs == old(db.blobs) && db.photos == old(db.photos) && db.stale == old(db.stale)
    ensures PhotoReadError(old(db.photos), id, readFault).None? && removeFault.None? ==>
      var photo := Single(old(db.photos), PhotoKey, id).value;
      && db.blobs == old(db.blobs) - {RemovalPath(photo.url)}
      && (deleteFault.Some? ==>
            out == Threw(Postgrest(deleteFault.value)) && db.photos == old(db.photos) && db.stale == old(db.stale))
      && (deleteFault.None? ==>
            && out == Returned(())
            && db.photos == FilterOut(old(db.photos), PhotoKey, id)
            && db.stale == old(db.stale) + PhotoPaths(photo.restaurantId, photo.reviewId))
  {
    out := DeletePhotoRemoving(db, id, RemovalPath, readFault, removeFault, deleteFault);
  }

  /** `deletePhoto` as intended: the same steps, removing the object key the URL names after its
      "photos" segment, which is the key `uploadPhoto` stored (`DeleteByObjectKeyRemovesUpload`). */
  method DeletePhotoByObjectKey(db: Db, id: Id, readFault: Fault, removeFault: StorageFault, deleteFault: Fault)
    returns (out: Outcome<()>)
    requires db.Valid()
    modifies db`blobs, db`photos, db`stale
    ensures db.Valid()
    ensures var readErr := PhotoReadError(old(db.photos), id, readFault);
      readErr.Some? ==>
        && out == Threw(Postgrest(readErr.value))
        && db.blobs == old(db.blobs) && db.photos == old(db.photos) && db.stale == old(db.stale)
    ensures PhotoReadError(old(db.photos), id, readFault).None? && removeFault.Some? ==>
      && out == Threw(Error(removeFault.value))
      && db.blobs == old(db.blobs) && db.photos == old(db.photos) && db.stale == old(db.stale)
    ensures PhotoReadError(old(db.photos), id, readFault).None? && removeFault.None? ==>
      var photo := Single(old(db.photos), PhotoKey, id).value;
      && db.blobs == old(db.blobs) - {ObjectKeyOfUrl(photo.url)}
      && (deleteFault.Some? ==>
            out == Threw(Postgrest(deleteFault.value)) && db.photos == old(db.photos) && db.stale == old(db.stale))
      && (deleteFault.None? ==>
            && out == Returned(())
            && db.photos == FilterOut(old(db.photos), PhotoKey, id)
            && db.stale == old(db.stale) + PhotoPaths(photo.restaurantId, photo.reviewId))
  {
    out := DeletePhotoRemoving(db, id, ObjectKeyOfUrl, readFault, removeFault, deleteFault);
  }

  /** The steps of `deletePhoto`, with the bucket path of a photo URL given as `pathOf`. */
  method DeletePhotoRemoving(db: Db, id: Id, pathOf: string -> string,
                             readFault: Fault, removeFault: StorageFault, deleteFault: Fault)
    returns (out: Outcome<()>)
    requires db.Valid()
    modifies db`blobs, db`photos, db`stale
    ensures db.Valid()
    ensures var readErr := PhotoReadError(old(db.photos), id, readFault);
      readErr.Some? ==>
        && out == Threw(Postgrest(readErr.value))
        && db.blobs == old(db.blobs) && db.photos == old(db.photos) && db.stale == old(db.stale)
    ensures PhotoReadError(old(db.photos), id, readFault).None? && removeFault.Some? ==>
      && out == Threw(Error(removeFault.value))
      && db.blobs == old(db.blobs) && db.photos == old(db.photos) && db.stale == old(db.stale)
    ensures PhotoReadError(old(db.photos), id, readFault).None? && removeFault.None? ==>
      var photo := Single(old(db.photos), PhotoKey, id).value;
      && db.blobs == old(db.blobs) - {pathOf(photo.url)}
      && (deleteFault.Some? ==>
            out == Threw(Postgrest(deleteFault.value)) && db.photos == old(db.photos) && db.stale == old(db.stale))
      && (deleteFault.None? ==>
            && out == Returned(())
            && db.photos == FilterOut(old(db.photos), PhotoKey, id)
            && db.stale == old(db.stale) + PhotoPaths(photo.restaurantId, photo.reviewId))
  {
    var readErr := PhotoReadError(db.photos, id, readFault);
    if readErr.Some? {
      return Threw(Postgrest(readErr.value));
    }
    var photo := Single(db.photos, PhotoKey, id).value;
    if removeFault.Some? {
      return Threw(Error(removeFault.value));
    }
    RemoveObject(db, pathOf(photo.url));
    if deleteFault.Some? {
      return Threw(Postgrest(deleteFault.value));
    }
    DropPhoto(db, id, PhotoPaths(photo.restaurantId, photo.reviewId));
    out := Returned(());
  }

  /** `storage.from("photos").remove([key])` once the bucket has accepted it. */
  method RemoveObject(db: Db, key: string)
    requires db.Valid()
    modifies db`blobs
    ensures db.Valid()
    ensures db.blobs == old(db.blobs) - {key}
  {
    db.blobs := db.blobs - {key};
  }

  /** The accepted delete of the photo row, then `revalidatePath` for each of `paths`. */
  method DropPhoto(db: Db, id: Id, paths: set<string>)
    requires db.Valid()
    modifies db`photos, db`stale
    ensures db.Valid()
    ensures db.photos == FilterOut(old(db.photos), PhotoKey, id) && db.stale == old(db.stale) + paths
  {
    FilterOutKeepsUnique(db.photos, PhotoKey, id, PhotoKey);
    db.photos := FilterOut(db.photos, PhotoKey, id);
    db.Revalidate(paths);
  }

  /** Deleting a photo `uploadPhoto` stored leaves its object in the bucket: the removal path
      names another object. */
  lemma DeleteLeavesUploadedObject(blobs: map<string, seq<bv8>>, storageUrl: string, key: string)
    requires BucketSegment !in Split(storageUrl, '/')
    requires key in blobs
    ensures key in blobs - {RemovalPath(PublicUrl(storageUrl, key))}
  {
    RemovalPathOfPublicUrl(storageUrl, key);
  }

  /** The intended removal: deleting by the recovered key removes the uploaded object. */
  lemma DeleteByObjectKeyRemovesUpload(blobs: map<string, seq<bv8>>, storageUrl: string, key: string)
    requires BucketSegment !in Split(storageUrl, '/')
    ensures key !in blobs - {ObjectKeyOfUrl(PublicUrl(storageUrl, key))}
  {
    ObjectKeyRoundTrip(storageUrl, key);
  }
}
