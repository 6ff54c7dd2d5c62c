/** The "edit review" dialog: the form seeded and re-synced from the review,
    field edits, and the submit sequence (optional replace-upload, then PUT). */
module EditReview {
  import opened Base
  import opened Reviews
  import opened Effects
  import MediaUpload

  const UploadFailedText := "Tải ảnh lên thất bại!"
  const UpdatedText := "Cập nhật thành công!"
  const UpdateFailedText := "Cập nhật thất bại!"

  /** The editable copy of a review, with the backend's field names. */
  datatype EditForm = EditForm(
    name: string,
    shopName: string,
    shopAddress: string,
    rating: int,
    review: string,
    image: string,
    category: string)

  /** The text inputs, by their `name` attributes "name", "shop_name",
      "shop_address", "category" and "review". */
  datatype EditField = Name | ShopName | ShopAddress | Category | Body

  datatype EditState = EditState(
    form: EditForm,
    preview: Option<string>,
    selectedFile: Option<File>,
    isLoading: bool,
    message: Option<Message>)

  function Get(f: EditForm, k: EditField): string {
    match k
    case Name => f.name
    case ShopName => f.shopName
    case ShopAddress => f.shopAddress
    case Category => f.category
    case Body => f.review
  }

  /** The form fields a review seeds. */
  function FieldsOf(r: Review): (f: EditForm)
    ensures f.name == r.name && f.shopName == r.shopName && f.shopAddress == r.shopAddress
    ensures f.rating == r.rating && f.review == r.body && f.image == r.image && f.category == r.category
  {
    EditForm(r.name, r.shopName, r.shopAddress, r.rating, r.body, r.image, r.category)
  }

  /** `review.image || null`. */
  function PreviewOf(image: string): (p: Option<string>)
    ensures p.Some? <==> image != ""
    ensures p.Some? ==> p.value == image
  {
    if image == "" then None else Some(image)
  }

  /** The state of a freshly mounted dialog. */
  function InitialEdit(r: Review): (st: EditState)
    ensures st.form == FieldsOf(r) && st.preview == PreviewOf(r.image)
    ensures st.selectedFile.None? && !st.isLoading && st.message.None?
  {
    EditState(FieldsOf(r), PreviewOf(r.image), None, false, None)
  }

  /** The effect run whenever the `review` prop changes: the form, preview,
      file and message are reset from it; `isLoading` is untouched. */
  function SyncFromReview(st: EditState, r: Review): (st': EditState)
    ensures st'.form == FieldsOf(r) && st'.preview == PreviewOf(r.image)
    ensures st'.selectedFile.None? && st'.message.None? && st'.isLoading == st.isLoading
  {
    EditState(FieldsOf(r), PreviewOf(r.image), None, st.isLoading, None)
  }

  /** Syncing depends only on the review, so it forgets every earlier edit. */
  lemma SyncForgetsEdits(a: EditState, b: EditState, r: Review)
    requires a.isLoading == b.isLoading
    ensures SyncFromReview(a, r) == SyncFromReview(b, r)
  {
  }

  /** `handleChange`: set one text field. */
  function HandleChange(st: EditState, k: EditField, value: string): (st': EditState)
    ensures Get(st'.form, k) == value
    ensures forall j :: j != k ==> Get(st'.form, j) == Get(st.form, j)
    ensures st'.form.rating == st.form.rating && st'.form.image == st.form.image
    ensures st'.preview == st.preview && st'.selectedFile == st.selectedFile
    ensures st'.isLoading == st.isLoading && st'.message == st.message
  {
    var f := st.form;
    var f' := match k
      case Name => f.(name := value)
      case ShopName => f.(shopName := value)
      case ShopAddress => f.(shopAddress := value)
      case Category => f.(category := value)
      case Body => f.(review := value);
    st.(form := f')
  }

  /** `handleRatingChange`. */
  function HandleRatingChange(st: EditState, star: int): (st': EditState)
    ensures st'.form == st.form.(rating := star)
    ensures st'.preview == st.preview && st'.selectedFile == st.selectedFile
    ensures st'.isLoading == st.isLoading && st'.message == st.message
  {
    st.(form := st.form.(rating := star))
  }

  /** A file was picked: it is kept for upload at once. */
  function ImageChosen(st: EditState, file: File): (st': EditState)
    ensures st' == st.(selectedFile := Some(file))
  {
    st.(selectedFile := Some(file))
  }

  /** The file reader finished: both the preview and `form.image` become the
      data URL (so a submit without a file would send that data URL). */
  function ImageLoaded(st: EditState, dataUrl: string): (st': EditState)
    ensures st'.preview == Some(dataUrl) && st'.form == st.form.(image := dataUrl)
    ensures st'.selectedFile == st.selectedFile && st'.isLoading == st.isLoading && st'.message == st.message
  {
    st.(preview := Some(dataUrl), form := st.form.(image := dataUrl))
  }

  /** The body of `PUT /updateItem/<id>`: the form, with `image` overridden
      and a fresh timestamp. */
  function PutPayload(f: EditForm, imageUrl: string, now: string): (p: ReviewPayload)
    ensures p.name == f.name && p.shopName == f.shopName && p.shopAddress == f.shopAddress
    ensures p.rating == f.rating && p.review == f.review && p.category == f.category
    ensures p.image == imageUrl && p.timestamp == now
  {
    ReviewPayload(f.name, f.shopName, f.shopAddress, f.rating, f.review, imageUrl, f.category, now)
  }

  /** A new file was selected and its upload produced no usable URL. */
  predicate UploadFails(st: EditState, r: Review, deleteOutcome: ApiOutcome<int>,
                        upload: ApiOutcome<MediaUpload.UploadReply>) {
    && st.selectedFile.Some?
    && !Truthy(MediaUpload.UploadToCloudinary(st.selectedFile.value, Some(r.image), deleteOutcome, upload).0)
  }

  /** `handleSubmit`. With a selected file the image is replaced first (the
      review's stored image is the deletion target); a failed upload stops
      there. Then the PUT is sent; its outcome decides the message and
      whether `form.image` takes the final URL. Loading always ends. */
  function HandleSubmit(st: EditState, r: Review, now: string,
                        deleteOutcome: ApiOutcome<int>,
                        upload: ApiOutcome<MediaUpload.UploadReply>,
                        put: ApiOutcome<()>): (res: (EditState, seq<Effect>))
    ensures !res.0.isLoading && res.0.message.Some?
    ensures res.0.preview == st.preview && res.0.selectedFile == st.selectedFile
    ensures res.0.form == st.form || (put.Ok? && res.0.form == st.form.(image := res.0.form.image))
    ensures st.selectedFile.None? || multiset(res.1)[CloudinaryUpload(st.selectedFile.value)] == 1
    ensures UploadFails(st, r, deleteOutcome, upload) ==>
              res.0.message == Some(Message(UploadFailedText, true)) && res.0.form == st.form
    ensures !UploadFails(st, r, deleteOutcome, upload) && put.Ok? ==>
              res.0.message == Some(Message(UpdatedText, false))
    ensures !UploadFails(st, r, deleteOutcome, upload) && !put.Ok? ==>
              res.0.message == Some(Message(UpdateFailedText, true)) && res.0.form == st.form
  {
    var (imageUrl, uploaded) :=
      if st.selectedFile.Some? then
        MediaUpload.UploadToCloudinary(st.selectedFile.value, Some(r.image), deleteOutcome, upload)
      else (Some(st.form.image), []);
    if !Truthy(imageUrl) && st.selectedFile.Some? then
      (st.(isLoading := false, message := Some(Message(UploadFailedText, true))), uploaded)
    else
      var finalUrl := if imageUrl.Some? then imageUrl.value else st.form.image;
      var sent := uploaded + [ApiUpdateItem(r.id, PutPayload(st.form, finalUrl, now))];
      if put.Ok? then
        (st.(form := st.form.(image := finalUrl), isLoading := false,
             message := Some(Message(UpdatedText, false))), sent)
      else
        (st.(isLoading := false, message := Some(Message(UpdateFailedText, true))), sent)
  }

  /** After the success notification: refresh the list, then close. */
  function AfterUpdated(): (t: seq<Effect>)
    ensures ReloadList in t && CloseDialog in t && |t| == 2
    ensures t[0] == ReloadList && t[1] == CloseDialog
  {
    [ReloadList, CloseDialog]
  }

  /** With no new file nothing is uploaded or deleted and the PUT carries the
      current `form.image`; whatever the fields hold (a rating of 0, empty
      text), no validation stands in the way. */
  lemma NoFileJustPuts(st: EditState, r: Review, now: string, d: ApiOutcome<int>,
                       upload: ApiOutcome<MediaUpload.UploadReply>, put: ApiOutcome<()>)
    requires st.selectedFile.None?
    ensures HandleSubmit(st, r, now, d, upload, put).1 ==
              [ApiUpdateItem(r.id, PutPayload(st.form, st.form.image, now))]
  {
  }

  /** With a new file, the request sequence begins with exactly the replace
      sequence for the review's stored image, and the PUT (when sent) comes
      last and carries the uploaded URL. */
  lemma FileReplacesStoredImage(st: EditState, r: Review, now: string, d: ApiOutcome<int>,
                                upload: ApiOutcome<MediaUpload.UploadReply>, put: ApiOutcome<()>)
    requires st.selectedFile.Some?
    ensures var up := MediaUpload.UploadToCloudinary(st.selectedFile.value, Some(r.image), d, upload);
            var t := HandleSubmit(st, r, now, d, upload, put).1;
      && t[..|up.1|] == up.1
      && (Truthy(up.0) ==> t == up.1 + [ApiUpdateItem(r.id, PutPayload(st.form, up.0.value, now))])
      && (!Truthy(up.0) ==> t == up.1)
  {
  }

  /** An upload that yields no URL ends the submit with the upload-failure
      message and no PUT; the form is unchanged. */
  lemma FailedUploadSendsNoPut(st: EditState, r: Review, now: string, d: ApiOutcome<int>,
                               upload: ApiOutcome<MediaUpload.UploadReply>, put: ApiOutcome<()>)
    requires st.selectedFile.Some?
    requires UploadFails(st, r, d, upload)
    ensures var res := HandleSubmit(st, r, now, d, upload, put);
      && res.0.message == Some(Message(UploadFailedText, true))
      && res.0.form == st.form
      && (forall e :: e in res.1 ==> !e.ApiUpdateItem?)
  {
    var up := MediaUpload.UploadToCloudinary(st.selectedFile.value, Some(r.image), d, upload);
    assert HandleSubmit(st, r, now, d, upload, put).1 == up.1;
  }

  /** When the stored image names a Cloudinary asset and the new upload
      yields no URL (a rejection, a status other than 200, or no
      `secure_url`), the request deleting that asset has already been sent,
      yet no PUT moves the review off it: the two calls are not
      transactional. */
  lemma FailedReplaceLeavesDanglingImage(st: EditState, r: Review, now: string, d: ApiOutcome<int>,
                                         upload: ApiOutcome<MediaUpload.UploadReply>, put: ApiOutcome<()>)
    requires UploadFails(st, r, d, upload)
    requires MediaUpload.DeletionTarget(Some(r.image)).Some?
    ensures var t := HandleSubmit(st, r, now, d, upload, put).1;
      && ApiDeleteImage(MediaUpload.DeletionTarget(Some(r.image)).value) in t
      && (forall e :: e in t ==> !e.ApiUpdateItem?)
  {
    var up := MediaUpload.UploadToCloudinary(st.selectedFile.value, Some(r.image), d, upload);
    assert up.1[0] == ApiDeleteImage(MediaUpload.DeletionTarget(Some(r.image)).value);
  }

  /** After a PUT, success adopts the final URL into `form.image` with the
      success message; failure leaves the form as it was. */
  lemma PutOutcomeDecidesForm(st: EditState, r: Review, now: string, d: ApiOutcome<int>,
                              upload: ApiOutcome<MediaUpload.UploadReply>, put: ApiOutcome<()>)
    requires st.selectedFile.None?
    ensures var res := HandleSubmit(st, r, now, d, upload, put).0;
      && (put.Ok? ==> res.form == st.form && res.message == Some(Message(UpdatedText, false)))
      && (!put.Ok? ==> res.form == st.form && res.message == Some(Message(UpdateFailedText, true)))
  {
  }

  /** A successful replace-and-save leaves `form.image` at the uploaded URL. */
  lemma SavedFormHoldsUploadedUrl(st: EditState, r: Review, now: string, d: ApiOutcome<int>,
                                  upload: ApiOutcome<MediaUpload.UploadReply>)
    requires st.selectedFile.Some?
    requires upload.Ok? && upload.data.status == 200 && Truthy(upload.data.secureUrl)
    ensures var res := HandleSubmit(st, r, now, d, upload, Ok(())).0;
      && res.form == st.form.(image := upload.data.secureUrl.value)
      && res.message == Some(Message(UpdatedText, false))
  {
  }

  /** Opening the dialog and saving it untouched sends the review back as it
      is, apart from a fresh timestamp. */
  lemma UntouchedSaveEchoesReview(r: Review, now: string, d: ApiOutcome<int>,
                                  upload: ApiOutcome<MediaUpload.UploadReply>, put: ApiOutcome<()>)
    ensures HandleSubmit(InitialEdit(r), r, now, d, upload, put).1 ==
      [ApiUpdateItem(r.id, ReviewPayload(r.name, r.shopName, r.shopAddress, r.rating, r.body,
                                         r.image, r.category, now))]
  {
  }
}
