/** The review form (components/review-form.tsx): validation and sequencing of a submission, and
    the editing of its dish and photo lists. */
module ReviewForm {
  import opened Wrappers
  import opened Seqs
  import opened Strings
  import opened Errors
  import opened Store
  import opened Types
  import opened Forms

  const SignInMessage: string := "Be kell jelentkezned az értékelés küldéséhez"
  const NoRatingMessage: string := "Kérjük, adj értékelést a helyről"
  const NoMessageMessage: string := "Kérjük, írj véleményt a helyről"
  const SendFailedMessage: string := "Nem sikerült elküldeni az értékelést. Kérjük, próbáld újra."

  /** The checks of `handleSubmit`, in order: a signed-in user, a rating, a non-blank message.
      The first that fails decides the message. */
  function SubmitError(signedIn: bool, rating: int, message: string): (e: Option<string>)
    ensures e.None? <==> signedIn && rating != 0 && Trim(message) != []
    ensures !signedIn ==> e == Some(SignInMessage)
    ensures signedIn && rating == 0 ==> e == Some(NoRatingMessage)
    ensures signedIn && rating != 0 && IsBlank(message) ==> e == Some(NoMessageMessage)
  {
    if !signedIn then Some(SignInMessage)
    else if rating == 0 then Some(NoRatingMessage)
    else if Trim(message) == [] then Some(NoMessageMessage)
    else None
  }

  /** The calls one submission makes: none when the checks fail; `createReview`, then one upload
      per photo with the new review's id and no restaurant id unless the creation threw. */
  function SubmitCalls(restaurantId: Id, user: Option<User>, rating: int, message: string, dishes: seq<DishDraft>,
                       files: seq<File>, created: Outcome<Id>): (calls: seq<Call>)
    ensures SubmitError(user.Some?, rating, message).Some? ==> calls == []
    ensures SubmitError(user.Some?, rating, message).None? ==>
      |calls| >= 1 && calls[0] == CreateReviewCall(restaurantId, user.value.id, rating, message, dishes)
    ensures SubmitError(user.Some?, rating, message).None? && created.Threw? ==> |calls| == 1
    ensures SubmitError(user.Some?, rating, message).None? && created.Returned? ==>
      calls[1..] == UploadCalls(files, user.value.id, None, Some(created.value))
  {
    if SubmitError(user.Some?, rating, message).Some? then []
    else
      var create := [CreateReviewCall(restaurantId, user.value.id, rating, message, dishes)];
      if created.Threw? then create
      else
        assert (create + UploadCalls(files, user.value.id, None, Some(created.value)))[1..]
            == UploadCalls(files, user.value.id, None, Some(created.value));
        create + UploadCalls(files, user.value.id, None, Some(created.value))
  }

  /** The calls after the checks: the creation, then the uploads for the new review unless the
      creation threw. */
  function SendCalls(create: Call, files: seq<File>, userId: Id, created: Outcome<Id>): seq<Call> {
    if created.Threw? then [create] else [create] + UploadCalls(files, userId, None, Some(created.value))
  }

  /** The calls of a submission that passes the checks, written out. */
  lemma SubmitCallsPassed(restaurantId: Id, user: Option<User>, rating: int, message: string,
                          dishes: seq<DishDraft>, files: seq<File>, created: Outcome<Id>)
    requires SubmitError(user.Some?, rating, message).None?
    ensures SubmitCalls(restaurantId, user, rating, message, dishes, files, created)
      == SendCalls(CreateReviewCall(restaurantId, user.value.id, rating, message, dishes), files, user.value.id, created)
  {
  }

  /** After a successful creation every photo is uploaded exactly once, for the new review only. */
  lemma SubmitUploadsEachPhotoOnce(restaurantId: Id, user: Option<User>, rating: int, message: string,
                                  dishes: seq<DishDraft>, files: seq<File>, reviewId: Id)
    requires SubmitError(user.Some?, rating, message).None?
    ensures var calls := SubmitCalls(restaurantId, user, rating, message, dishes, files, Returned(reviewId));
      && |calls| == 1 + |files|
      && (forall k :: 0 <= k < |files| ==> calls[k + 1] == UploadPhotoCall(files[k], user.value.id, None, Some(reviewId)))
      && (forall c :: c in calls[1..] ==> c.UploadPhotoCall? && c.forRestaurant.None? && c.forReview == Some(reviewId))
  {
    var calls := SubmitCalls(restaurantId, user, rating, message, dishes, files, Returned(reviewId));
    var uploads := UploadCalls(files, user.value.id, None, Some(reviewId));
    assert calls[1..] == uploads;
    forall k | 0 <= k < |files| ensures calls[k + 1] == UploadPhotoCall(files[k], user.value.id, None, Some(reviewId)) {
      assert calls[k + 1] == uploads[k];
    }
    forall c | c in calls[1..] ensures c.UploadPhotoCall? && c.forRestaurant.None? && c.forReview == Some(reviewId) {
      UploadCallsOfFile(files, user.value.id, None, Some(reviewId), c);
    }
  }

  /** The dish `addDish` appends: the trimmed name, and the parsed price when a price was typed. */
  function NewDish(currentDish: string, currentPrice: string, parsePrice: string -> real): (d: DishDraft)
    ensures d.name == Trim(currentDish)
    ensures d.price.Some? <==> currentPrice != ""
    ensures d.price.Some? ==> d.price.value == parsePrice(currentPrice)
  {
    DishDraft(Trim(currentDish), if currentPrice != "" then Some(parsePrice(currentPrice)) else None)
  }

  /** The form's state. `user` is the signed-in user of the session, `calls` the calls into the
      actions so far and `cancelled` whether `onCancel` has run. */
  class ReviewFormState {
    const restaurantId: Id
    const user: Option<User>
    var isSubmitting: bool
    var rating: int
    var message: string
    var dishes: seq<DishDraft>
    var currentDish: string
    var currentPrice: string
    var photoFiles: seq<File>
    var photoPreviewUrls: seq<string>
    var error: Option<string>
    var calls: seq<Call>
    var cancelled: bool

    /** Every chosen photo has its preview, at the same position. */
    ghost predicate Valid()
      reads this
    {
      |photoFiles| == |photoPreviewUrls|
    }

    constructor (restaurantId: Id, user: Option<User>)
      ensures Valid()
      ensures this.restaurantId == restaurantId && this.user == user
      ensures !isSubmitting && rating == 0 && message == "" && dishes == []
      ensures currentDish == "" && currentPrice == "" && photoFiles == [] && photoPreviewUrls == []
      ensures error.None? && calls == [] && !cancelled
    {
      this.restaurantId := restaurantId;
      this.user := user;
      isSubmitting := false;
      rating := 0;
      message := "";
      dishes := [];
      currentDish := "";
      currentPrice := "";
      photoFiles := [];
      photoPreviewUrls := [];
      error := None;
      calls := [];
      cancelled := false;
    }

    /** The star rating's `onChange`. */
    method SetRating(r: int)
      modifies this
      ensures rating == r
      ensures message == old(message) && dishes == old(dishes) && photoFiles == old(photoFiles)
      ensures photoPreviewUrls == old(photoPreviewUrls) && error == old(error) && calls == old(calls)
      ensures currentDish == old(currentDish) && currentPrice == old(currentPrice)
      ensures isSubmitting == old(isSubmitting) && cancelled == old(cancelled)
    {
      rating := r;
    }

    /** The text inputs' `onChange`. */
    method SetText(message: string, currentDish: string, currentPrice: string)
      modifies this
      ensures this.message == message && this.currentDish == currentDish && this.currentPrice == currentPrice
      ensures rating == old(rating) && dishes == old(dishes) && photoFiles == old(photoFiles)
      ensures photoPreviewUrls == old(photoPreviewUrls) && error == old(error) && calls == old(calls)
      ensures isSubmitting == old(isSubmitting) && cancelled == old(cancelled)
    {
      this.message := message;
      this.currentDish := currentDish;
      this.currentPrice := currentPrice;
    }

    /** `handleSubmit`. `created` is what `createReview` resolves to or throws, `uploadFails` the
        positions of the photos whose upload throws. A failed check sets its message and calls
        nothing. */
    method HandleSubmit(created: Outcome<Id>, uploadFails: set<int>)
      requires Valid()
      modifies this
      ensures Valid()
      ensures calls == old(calls) + SubmitCalls(restaurantId, user, old(rating), old(message), old(dishes),
                                                old(photoFiles), created)
      ensures var e := SubmitError(user.Some?, old(rating), old(message));
        && (e.Some? ==> error == e && isSubmitting == old(isSubmitting) && cancelled == old(cancelled))
        && (e.None? ==> !isSubmitting)
        && (e.None? && created.Returned? && AllSucceed(|old(photoFiles)|, uploadFails) ==> error.None? && cancelled)
        && (e.None? && !(created.Returned? && AllSucceed(|old(photoFiles)|, uploadFails)) ==>
              error == Some(SendFailedMessage) && cancelled == old(cancelled))
      ensures rating == old(rating) && message == old(message) && dishes == old(dishes)
      ensures photoFiles == old(photoFiles) && photoPreviewUrls == old(photoPreviewUrls)
      ensures currentDish == old(currentDish) && currentPrice == old(currentPrice)
    {
      var e := SubmitError(user.Some?, rating, message);
      if e.Some? {
        error := e;
        return;
      }
      SubmitCallsPassed(restaurantId, user, rating, message, dishes, photoFiles, created);
      Send(created, uploadFails);
    }

    /** The part of `handleSubmit` after the checks: clear the error, mark the form busy, create
        the review, upload the photos, then run `onCancel`; any throw sets the failure message.
        The `finally` clears the busy mark on both paths. */
    method Send(created: Outcome<Id>, uploadFails: set<int>)
      requires Valid() && user.Some?
      modifies this
      ensures Valid()
      ensures calls == old(calls) + SendCalls(CreateReviewCall(restaurantId, user.value.id, old(rating), old(message),
                                                               old(dishes)), old(photoFiles), user.value.id, created)
      ensures !isSubmitting
      ensures created.Returned? && AllSucceed(|old(photoFiles)|, uploadFails) ==> error.None? && cancelled
      ensures !(created.Returned? && AllSucceed(|old(photoFiles)|, uploadFails)) ==>
        error == Some(SendFailedMessage) && cancelled == old(cancelled)
      ensures rating == old(rating) && message == old(message) && dishes == old(dishes)
      ensures photoFiles == old(photoFiles) && photoPreviewUrls == old(photoPreviewUrls)
      ensures currentDish == old(currentDish) && currentPrice == old(currentPrice)
    {
      error := None;
      isSubmitting := true;
      var create := CreateReviewCall(restaurantId, user.value.id, rating, message, dishes);
      if created.Threw? {
        calls := calls + [create];
        error := Some(SendFailedMessage);
        isSubmitting := false;
        return;
      }
      var ok := true;
      var uploads := [];
      if |photoFiles| > 0 {
        uploads, ok := UploadEach(photoFiles, user.value.id, None, Some(created.value), uploadFails);
      } else {
        assert UploadCalls(photoFiles, user.value.id, None, Some(created.value)) == [];
      }
      calls := calls + ([create] + uploads);
      if ok {
        cancelled := true;
      } else {
        error := Some(SendFailedMessage);
      }
      isSubmitting := false;
    }

    /** `addDish`: with a non-blank name, append the dish and clear both inputs; otherwise change
        nothing. `parsePrice` stands for `Number.parseFloat`. */
    method AddDish(parsePrice: string -> real)
      modifies this
      ensures !IsBlank(old(currentDish)) ==>
        dishes == old(dishes) + [NewDish(old(currentDish), old(currentPrice), parsePrice)]
        && currentDish == "" && currentPrice == ""
      ensures IsBlank(old(currentDish)) ==>
        dishes == old(dishes) && currentDish == old(currentDish) && currentPrice == old(currentPrice)
      ensures rating == old(rating) && message == old(message) && photoFiles == old(photoFiles)
      ensures photoPreviewUrls == old(photoPreviewUrls) && error == old(error) && calls == old(calls)
      ensures isSubmitting == old(isSubmitting) && cancelled == old(cancelled)
    {
      if Trim(currentDish) != [] {
        dishes := dishes + [NewDish(currentDish, currentPrice, parsePrice)];
        currentDish := "";
        currentPrice := "";
      }
    }

    /** `removeDish`: drop the dish at `index`; the others keep their order. */
    method RemoveDish(index: int)
      modifies this
      ensures dishes == WithoutIndex(old(dishes), index)
      ensures 0 <= index < |old(dishes)| ==> dishes == old(dishes)[..index] + old(dishes)[index + 1..]
      ensures rating == old(rating) && message == old(message) && photoFiles == old(photoFiles)
      ensures photoPreviewUrls == old(photoPreviewUrls) && error == old(error) && calls == old(calls)
      ensures currentDish == old(currentDish) && currentPrice == old(currentPrice)
      ensures isSubmitting == old(isSubmitting) && cancelled == old(cancelled)
    {
      dishes := WithoutIndex(dishes, index);
    }

    /** `handlePhotoUpload`: append the chosen files and one preview URL for each.
        `objectUrl` stands for `URL.createObjectURL`. */
    method HandlePhotoUpload(newFiles: seq<File>, objectUrl: File -> string)
      requires Valid()
      modifies this
      ensures Valid()
      ensures photoFiles == old(photoFiles) + newFiles
      ensures photoPreviewUrls == old(photoPreviewUrls) + PreviewUrls(newFiles, objectUrl)
      ensures rating == old(rating) && message == old(message) && dishes == old(dishes)
      ensures error == old(error) && calls == old(calls)
      ensures currentDish == old(currentDish) && currentPrice == old(currentPrice)
      ensures isSubmitting == old(isSubmitting) && cancelled == old(cancelled)
    {
      if |newFiles| > 0 {
        AppendAligned(photoFiles, photoPreviewUrls, newFiles, objectUrl);
        photoFiles := photoFiles + newFiles;
        photoPreviewUrls := photoPreviewUrls + PreviewUrls(newFiles, objectUrl);
      }
    }

    /** `removePhoto`: drop the photo at `index` and its preview. */
    method RemovePhoto(index: int)
      requires Valid()
      modifies this
      ensures Valid()
      ensures photoFiles == WithoutIndex(old(photoFiles), index)
      ensures photoPreviewUrls == WithoutIndex(old(photoPreviewUrls), index)
      ensures rating == old(rating) && message == old(message) && dishes == old(dishes)
      ensures error == old(error) && calls == old(calls)
      ensures currentDish == old(currentDish) && currentPrice == old(currentPrice)
      ensures isSubmitting == old(isSubmitting) && cancelled == old(cancelled)
    {
      WithoutIndexAligned(photoFiles, photoPreviewUrls, index);
      photoFiles := WithoutIndex(photoFiles, index);
      photoPreviewUrls := WithoutIndex(photoPreviewUrls, index);
    }
  }
}
