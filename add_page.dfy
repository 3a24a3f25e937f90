/** The add-venue page (app/add/page.tsx): create the restaurant, upload its photos, then open
    its page. */
module AddPage {
  import opened Wrappers
  import opened Errors
  import opened Store
  import opened Types
  import opened Forms
  import opened RestaurantForm

  const SignInMessage: string := "Be kell jelentkezned a hely hozzáadásához"
  const AddFailedMessage: string := "Nem sikerült hozzáadni a helyet. Kérjük, próbáld újra."

  /** The calls one submission makes: none without a user; `createRestaurant`, then one upload
      per photo with the user's id and the new restaurant's id unless the creation threw. */
  function AddCalls(user: Option<User>, data: Submission, created: Outcome<Id>): (calls: seq<Call>)
    ensures user.None? ==> calls == []
    ensures user.Some? ==>
      |calls| >= 1 && calls[0] == CreateRestaurantCall(data.name, data.address, data.priceTier, user.value.id)
    ensures user.Some? && created.Threw? ==> |calls| == 1
    ensures user.Some? && created.Returned? ==>
      calls[1..] == UploadCalls(data.photos, user.value.id, Some(created.value), None)
  {
    if user.None? then []
    else
      var create := [CreateRestaurantCall(data.name, data.address, data.priceTier, user.value.id)];
      if created.Threw? then create
      else
        assert (create + UploadCalls(data.photos, user.value.id, Some(created.value), None))[1..]
            == UploadCalls(data.photos, user.value.id, Some(created.value), None);
        create + UploadCalls(data.photos, user.value.id, Some(created.value), None)
  }

  /** Every upload of a submission is for the signed-in user and the new restaurant, one per
      photo; an empty photo list uploads nothing. */
  lemma AddUploadsEachPhoto(user: Option<User>, data: Submission, restaurantId: Id)
    requires user.Some?
    ensures var calls := AddCalls(user, data, Returned(restaurantId));
      && |calls| == 1 + |data.photos|
      && (forall c :: c in calls[1..] ==>
            c.UploadPhotoCall? && c.userId == user.value.id && c.forRestaurant == Some(restaurantId) && c.forReview.None?)
      && (data.photos == [] ==> calls == [CreateRestaurantCall(data.name, data.address, data.priceTier, user.value.id)])
  {
    var calls := AddCalls(user, data, Returned(restaurantId));
    forall c | c in calls[1..]
      ensures c.UploadPhotoCall? && c.userId == user.value.id && c.forRestaurant == Some(restaurantId) && c.forReview.None?
    {
      UploadCallsOfFile(data.photos, user.value.id, Some(restaurantId), None, c);
    }
    if data.photos == [] {
      assert calls == [calls[0]] + calls[1..];
    }
  }

  /** The page's state; `navigatedTo` is the path `router.push` was given, if any. */
  class AddPageState {
    const user: Option<User>
    var isSubmitting: bool
    var error: Option<string>
    var calls: seq<Call>
    var navigatedTo: Option<string>

    constructor (user: Option<User>)
      ensures this.user == user && !isSubmitting && error.None? && calls == [] && navigatedTo.None?
    {
      this.user := user;
      isSubmitting := false;
      error := None;
      calls := [];
      navigatedTo := None;
    }

    /** `handleSubmit`, given what `createRestaurant` resolves to or throws and the positions of
        the photos whose upload throws. Without a user only the error is set. Otherwise the page
        is marked busy and the error cleared; after creation and every upload it opens the new
        restaurant's page and stays busy, and on any throw it sets the failure message and is no
        longer busy. */
    method HandleSubmit(data: Submission, created: Outcome<Id>, uploadFails: set<int>)
      modifies this
      ensures calls == old(calls) + AddCalls(user, data, created)
      ensures user.None? ==>
        error == Some(SignInMessage) && isSubmitting == old(isSubmitting) && navigatedTo == old(navigatedTo)
      ensures user.Some? && created.Returned? && AllSucceed(|data.photos|, uploadFails) ==>
        navigatedTo == Some(RestaurantPath(created.value)) && isSubmitting && error.None?
      ensures user.Some? && !(created.Returned? && AllSucceed(|data.photos|, uploadFails)) ==>
        navigatedTo == old(navigatedTo) && !isSubmitting && error == Some(AddFailedMessage)
    {
      if user.None? {
        error := Some(SignInMessage);
        return;
      }
      isSubmitting := true;
      error := None;
      var create := CreateRestaurantCall(data.name, data.address, data.priceTier, user.value.id);
      if created.Threw? {
        calls := calls + [create];
        error := Some(AddFailedMessage);
        isSubmitting := false;
        return;
      }
      var restaurantId := created.value;
      var ok := true;
      var uploads := [];
      if |data.photos| > 0 {
        uploads, ok := UploadEach(data.photos, user.value.id, Some(restaurantId), None, uploadFails);
      } else {
        assert UploadCalls(data.photos, user.value.id, Some(restaurantId), None) == [];
      }
      calls := calls + ([create] + uploads);
      if !ok {
        error := Some(AddFailedMessage);
        isSubmitting := false;
        return;
      }
      navigatedTo := Some(RestaurantPath(restaurantId));
    }
  }
}
