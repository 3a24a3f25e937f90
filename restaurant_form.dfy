/** The restaurant form (components/restaurant-form.tsx): its initial values, the validation of a
    submission and the photo list with its previews. */
module RestaurantForm {
  import opened Wrappers
  import opened Seqs
  import opened Strings
  import opened Types
  import opened Forms

  const NameMessage: string := "Kérjük, add meg a hely nevét"
  const AddressMessage: string := "Kérjük, add meg a hely címét"

  /** The values an edit starts from. */
  datatype InitialData = InitialData(name: string, address: string, priceTier: int)

  /** What `onSubmit` is handed. */
  datatype Submission = Submission(name: string, address: string, priceTier: int, photos: seq<File>)

  /** `initialData?.priceTier || 2`: the given tier unless it is absent or 0, else the middle
      tier; never 0. */
  function InitialPriceTier(initialData: Option<InitialData>): (t: int)
    ensures t != 0
    ensures initialData.Some? && initialData.value.priceTier != 0 ==> t == initialData.value.priceTier
    ensures initialData.None? || initialData.value.priceTier == 0 ==> t == 2
  {
    if initialData.Some? && initialData.value.priceTier != 0 then initialData.value.priceTier else 2
  }

  /** The checks of `handleSubmit`: a non-blank name, then a non-blank address; the name's message
      wins when both are blank. */
  function FormError(name: string, address: string): Option<string> {
    if Trim(name) == [] then Some(NameMessage)
    else if Trim(address) == [] then Some(AddressMessage)
    else None
  }

  /** A submission passes exactly when neither field is all white space, and a blank name is
      reported before a blank address. */
  lemma FormErrorChecks(name: string, address: string)
    ensures FormError(name, address).None? <==> !IsBlank(name) && !IsBlank(address)
    ensures IsBlank(name) ==> FormError(name, address) == Some(NameMessage)
    ensures !IsBlank(name) && IsBlank(address) ==> FormError(name, address) == Some(AddressMessage)
  {
  }

  /** The form's state; `submitted` holds what `onSubmit` has been called with. */
  class RestaurantFormState {
    var name: string
    var address: string
    var priceTier: int
    var photoFiles: seq<File>
    var photoPreviewUrls: seq<string>
    var formError: Option<string>
    var submitted: seq<Submission>

    /** Every chosen photo has its preview, at the same position. */
    ghost predicate Valid()
      reads this
    {
      |photoFiles| == |photoPreviewUrls|
    }

    /** The fields start from `initialData` (empty when absent) and the error from the `error`
        prop as it is at mount. */
    constructor (initialData: Option<InitialData>, error: Option<string>)
      ensures Valid()
      ensures name == (if initialData.Some? then initialData.value.name else "")
      ensures address == (if initialData.Some? then initialData.value.address else "")
      ensures priceTier == InitialPriceTier(initialData)
      ensures photoFiles == [] && photoPreviewUrls == [] && formError == error && submitted == []
    {
      name := if initialData.Some? then initialData.value.name else "";
      address := if initialData.Some? then initialData.value.address else "";
      priceTier := InitialPriceTier(initialData);
      photoFiles := [];
      photoPreviewUrls := [];
      formError := error;
      submitted := [];
    }

    /** The name and address inputs' `onChange`. */
    method SetText(name: string, address: string)
      modifies this
      ensures this.name == name && this.address == address
      ensures priceTier == old(priceTier) && photoFiles == old(photoFiles) && photoPreviewUrls == old(photoPreviewUrls)
      ensures formError == old(formError) && submitted == old(submitted)
    {
      this.name := name;
      this.address := address;
    }

    /** The tier radio group's `onValueChange`. */
    method SetPriceTier(t: int)
      modifies this
      ensures priceTier == t
      ensures name == old(name) && address == old(address)
      ensures photoFiles == old(photoFiles) && photoPreviewUrls == old(photoPreviewUrls)
      ensures formError == old(formError) && submitted == old(submitted)
    {
      priceTier := t;
    }

    /** `handleSubmit`: a failed check sets its message and submits nothing; otherwise the error
        is cleared and `onSubmit` gets the fields as typed, untrimmed, with the tier and the files. */
    method HandleSubmit()
      modifies this
      ensures var e := FormError(old(name), old(address));
        && (e.Some? ==> formError == e && submitted == old(submitted))
        && (e.None? ==> formError.None?)
        && (e.None? ==> submitted == old(submitted) + [Submission(old(name), old(address), old(priceTier), old(photoFiles))])
      ensures name == old(name) && address == old(address) && priceTier == old(priceTier)
      ensures photoFiles == old(photoFiles) && photoPreviewUrls == old(photoPreviewUrls)
    {
      var e := FormError(name, address);
      if e.Some? {
        formError := e;
      } else {
        Accept();
      }
    }

    /** The passing branch of `handleSubmit`: clear the error and hand the fields to `onSubmit`. */
    method Accept()
      modifies this
      ensures formError.None?
      ensures submitted == old(submitted) + [Submission(old(name), old(address), old(priceTier), old(photoFiles))]
      ensures name == old(name) && address == old(address) && priceTier == old(priceTier)
      ensures photoFiles == old(photoFiles) && photoPreviewUrls == old(photoPreviewUrls)
    {
      formError := None;
      submitted := submitted + [Submission(name, address, priceTier, photoFiles)];
    }

    /** `handlePhotoUpload`: append the chosen files and one preview URL for each.
        `objectUrl` stands for `URL.createObjectURL`. */
    method HandlePhotoUpload(newFiles: seq<File>, objectUrl: File -> string)
      requires Valid()
      modifies this
      ensures Valid()
      ensures photoFiles == old(photoFiles) + newFiles
      ensures photoPreviewUrls == old(photoPreviewUrls) + PreviewUrls(newFiles, objectUrl)
      ensures name == old(name) && address == old(address) && priceTier == old(priceTier)
      ensures formError == old(formError) && submitted == old(submitted)
    {
      if |newFiles| > 0 {
        AppendAligned(photoFiles, photoPreviewUrls, newFiles, objectUrl);
        photoFiles := photoFiles + newFiles;
        photoPreviewUrls := photoPreviewUrls + PreviewUrls(newFiles, objectUrl);
      }
    }

    /** `removePhoto`: drop the photo at `index` and its preview. */
    method RemovePhoto(index: int)
      requires Valid()
      modifies this
      ensures Valid()
      ensures photoFiles == WithoutIndex(old(photoFiles), index)
      ensures photoPreviewUrls == WithoutIndex(old(photoPreviewUrls), index)
      ensures name == old(name) && address == old(address) && priceTier == old(priceTier)
      ensures formError == old(formError) && submitted == old(submitted)
    {
      WithoutIndexAligned(photoFiles, photoPreviewUrls, index);
      photoFiles := WithoutIndex(photoFiles, index);
      photoPreviewUrls := WithoutIndex(photoPreviewUrls, index);
    }
  }
}
