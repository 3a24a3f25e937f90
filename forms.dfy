/** What the review form, the restaurant form and the add page share: the calls they make into
    the actions, the upload of a list of photos, and the photo list with its preview URLs. */
module Forms {
  import opened Wrappers
  import opened Seqs
  import opened Store
  import opened Types

  /** A dish as the review form collects it: a name and an optional price. */
  datatype DishDraft = DishDraft(name: string, price: Option<real>)

  /** A call into the actions, as issued by a page. */
  datatype Call =
    | CreateReviewCall(restaurantId: Id, userId: Id, rating: int, message: string, dishes: seq<DishDraft>)
    | CreateRestaurantCall(name: string, address: string, priceTier: int, userId: Id)
    | UploadPhotoCall(file: File, userId: Id, forRestaurant: Option<Id>, forReview: Option<Id>)

  /** `files.map((file) => uploadPhoto(file, userId, restaurantId, reviewId))`: one upload per
      file, in list order, each carrying the same owner ids. */
  function UploadCalls(files: seq<File>, userId: Id, restaurantId: Option<Id>, reviewId: Option<Id>): (calls: seq<Call>)
    ensures |calls| == |files|
    ensures forall k :: 0 <= k < |files| ==> calls[k] == UploadPhotoCall(files[k], userId, restaurantId, reviewId)
  {
    seq(|files|, k requires 0 <= k < |files| => UploadPhotoCall(files[k], userId, restaurantId, reviewId))
  }

  /** The upload calls made for a list of files name each file exactly once, at its own position. */
  lemma UploadCallsOfFile(files: seq<File>, userId: Id, restaurantId: Option<Id>, reviewId: Option<Id>, c: Call)
    requires c in UploadCalls(files, userId, restaurantId, reviewId)
    ensures c.UploadPhotoCall? && c.file in files && c.userId == userId
    ensures c.forRestaurant == restaurantId && c.forReview == reviewId
  {
    var calls := UploadCalls(files, userId, restaurantId, reviewId);
    var k :| 0 <= k < |calls| && calls[k] == c;
    assert c == UploadPhotoCall(files[k], userId, restaurantId, reviewId);
  }

  /** `await Promise.all(uploadPromises)`, taken one file after another: every upload is issued,
      and the whole succeeds exactly when none of them failed. `fails` holds the positions whose
      upload throws. */
  /** No position below `n` is one whose upload fails. */
  predicate AllSucceed(n: int, fails: set<int>) {
    forall k :: 0 <= k < n ==> k !in fails
  }

  method UploadEach(files: seq<File>, userId: Id, restaurantId: Option<Id>, reviewId: Option<Id>, fails: set<int>)
    returns (calls: seq<Call>, ok: bool)
    ensures calls == UploadCalls(files, userId, restaurantId, reviewId)
    ensures ok <==> AllSucceed(|files|, fails)
  {
    calls := [];
    ok := true;
    var i := 0;
    while i < |files|
      invariant 0 <= i <= |files|
      invariant calls == UploadCalls(files[..i], userId, restaurantId, reviewId)
      invariant ok <==> AllSucceed(i, fails)
    {
      calls := calls + [UploadPhotoCall(files[i], userId, restaurantId, reviewId)];
      if i in fails {
        ok := false;
      }
      i := i + 1;
      assert files[..i] == files[..i - 1] + [files[i - 1]];
    }
    assert files[..i] == files;
  }

  /** The preview URLs of newly chosen files, one per file (`URL.createObjectURL`). */
  function PreviewUrls(files: seq<File>, objectUrl: File -> string): (urls: seq<string>)
    ensures |urls| == |files|
    ensures forall k :: 0 <= k < |files| ==> urls[k] == objectUrl(files[k])
  {
    seq(|files|, k requires 0 <= k < |files| => objectUrl(files[k]))
  }

  /** The position in the old list of what sits at `k` once `index` is dropped. */
  function SourcePosition(index: int, k: int): int {
    if 0 <= index <= k then k + 1 else k
  }

  /** Dropping the same position from two lists of equal length keeps them of equal length and
      keeps every file beside its own preview. */
  lemma WithoutIndexAligned<A, B>(a: seq<A>, b: seq<B>, index: int)
    requires |a| == |b|
    ensures |WithoutIndex(a, index)| == |WithoutIndex(b, index)|
    ensures forall k :: 0 <= k < |WithoutIndex(a, index)| ==>
      && 0 <= SourcePosition(index, k) < |a|
      && WithoutIndex(a, index)[k] == a[SourcePosition(index, k)]
      && WithoutIndex(b, index)[k] == b[SourcePosition(index, k)]
  {
    if 0 <= index < |a| {
      forall k | 0 <= k < |WithoutIndex(a, index)|
        ensures WithoutIndex(a, index)[k] == a[SourcePosition(index, k)]
        ensures WithoutIndex(b, index)[k] == b[SourcePosition(index, k)]
      {
        WithoutIndexAt(a, index, k);
        WithoutIndexAt(b, index, k);
      }
    }
  }

  /** Appending each new file's preview keeps every file beside its own preview. */
  lemma AppendAligned(files: seq<File>, urls: seq<string>, newFiles: seq<File>, objectUrl: File -> string)
    requires |files| == |urls|
    ensures |files + newFiles| == |urls + PreviewUrls(newFiles, objectUrl)|
    ensures forall k :: |files| <= k < |files + newFiles| ==>
      (urls + PreviewUrls(newFiles, objectUrl))[k] == objectUrl((files + newFiles)[k])
    ensures forall k :: 0 <= k < |files| ==>
      (files + newFiles)[k] == files[k] && (urls + PreviewUrls(newFiles, objectUrl))[k] == urls[k]
  {
  }
}
