/** The "new review" dialog: field and error updates, validation, the submit
    guard, and the upload-then-insert sequence with its payload mapping. */
module CreateForm {
  import opened Base
  import opened Reviews
  import opened Effects
  import MediaUpload

  /** The text inputs of the dialog, each named by its `name` attribute. */
  datatype FormField = Name | ShopName | ShopAddress | Category | ReviewText

  function Key(f: FormField): string {
    match f
    case Name => "name"
    case ShopName => "shopName"
    case ShopAddress => "shopAddress"
    case Category => "category"
    case ReviewText => "reviewText"
  }

  /** Error keys are per input; the two keys `validateForm` writes are these. */
  const RatingKey := "rating"
  const PreviewKey := "preview"

  const RatingMissingText := "Vui lòng chọn số sao đánh giá"
  const ImageMissingText := "Vui lòng tải lên hình ảnh"
  const IncompleteText := "Vui lòng điền đầy đủ thông tin!"
  const SavedText := "Thêm thành công!"
  /** The failure text carries a leading space in the component. */
  const SaveFailedText := " Lưu đánh giá lỗi!"

  datatype FormData = FormData(
    name: string,
    shopName: string,
    shopAddress: string,
    category: string,
    reviewText: string,
    selectedRating: int,
    preview: Option<string>)

  datatype FormState = FormState(
    data: FormData,
    errors: map<string, string>,
    selectedFile: Option<File>,
    isLoading: bool,
    message: Option<Message>)

  function Get(d: FormData, f: FormField): string {
    match f
    case Name => d.name
    case ShopName => d.shopName
    case ShopAddress => d.shopAddress
    case Category => d.category
    case ReviewText => d.reviewText
  }

  /** `user?.username ?? ''`: the signed-in user's name, or empty. */
  function UsernameOf(user: Option<Option<string>>): (u: string)
    ensures user.Some? && user.value.Some? ==> u == user.value.value
    ensures !(user.Some? && user.value.Some?) ==> u == ""
  {
    match user
    case Some(Some(n)) => n
    case _ => ""
  }

  function EmptyData(username: string): FormData {
    FormData(username, "", "", "", "", 0, None)
  }

  /** `resetForm` (also run whenever `username` changes): every field empty
      but `name`, no file, no errors and no message; `isLoading` untouched. */
  function ResetForm(st: FormState, username: string): (r: FormState)
    ensures r.data.name == username && r.data.selectedRating == 0 && r.data.preview.None?
    ensures forall f :: f != Name ==> Get(r.data, f) == ""
    ensures r.errors == map[] && r.selectedFile.None? && r.message.None?
    ensures r.isLoading == st.isLoading
  {
    FormState(EmptyData(username), map[], None, st.isLoading, None)
  }

  /** The state a freshly mounted dialog holds. */
  function InitialForm(username: string): (r: FormState)
    ensures r == ResetForm(r, username) && !r.isLoading
  {
    FormState(EmptyData(username), map[], None, false, None)
  }

  /** `handleClose`: close the dialog and reset it. */
  function HandleClose(st: FormState, username: string): (r: (FormState, seq<Effect>))
    ensures r.0 == ResetForm(st, username) && r.1 == [CloseDialog]
  {
    (ResetForm(st, username), [CloseDialog])
  }

  /** `handleChange`: set one field and clear that field's error entry. */
  function HandleChange(st: FormState, f: FormField, value: string): (r: FormState)
    ensures Get(r.data, f) == value
    ensures forall g :: g != f ==> Get(r.data, g) == Get(st.data, g)
    ensures r.data.selectedRating == st.data.selectedRating && r.data.preview == st.data.preview
    ensures r.errors == st.errors[Key(f) := ""]
    ensures r.selectedFile == st.selectedFile && r.isLoading == st.isLoading && r.message == st.message
  {
    var d := st.data;
    var d' := match f
      case Name => d.(name := value)
      case ShopName => d.(shopName := value)
      case ShopAddress => d.(shopAddress := value)
      case Category => d.(category := value)
      case ReviewText => d.(reviewText := value);
    st.(data := d', errors := st.errors[Key(f) := ""])
  }

  /** `handleRatingChange`: set the rating and clear the rating error. */
  function HandleRatingChange(st: FormState, star: int): (r: FormState)
    ensures r.data == st.data.(selectedRating := star)
    ensures r.errors == st.errors[RatingKey := ""]
    ensures r.selectedFile == st.selectedFile && r.isLoading == st.isLoading && r.message == st.message
  {
    st.(data := st.data.(selectedRating := star), errors := st.errors[RatingKey := ""])
  }

  /** The file reader finished: the preview becomes its data URL, the file is
      kept for upload, and the image error is cleared. */
  function ImageLoaded(st: FormState, file: File, dataUrl: string): (r: FormState)
    ensures r.data == st.data.(preview := Some(dataUrl))
    ensures r.selectedFile == Some(file) && r.errors == st.errors[PreviewKey := ""]
    ensures r.isLoading == st.isLoading && r.message == st.message
  {
    st.(data := st.data.(preview := Some(dataUrl)), selectedFile := Some(file),
        errors := st.errors[PreviewKey := ""])
  }

  /** `validateForm`: a fresh error map holding only the failed checks. */
  function ValidateForm(d: FormData): (e: map<string, string>)
    ensures RatingKey in e <==> d.selectedRating == 0
    ensures PreviewKey in e <==> !Truthy(d.preview)
    ensures e.Keys <= {RatingKey, PreviewKey}
    ensures RatingKey in e ==> e[RatingKey] == RatingMissingText
    ensures PreviewKey in e ==> e[PreviewKey] == ImageMissingText
  {
    var e1 := if d.selectedRating == 0 then map[RatingKey := RatingMissingText] else map[];
    if !Truthy(d.preview) then e1[PreviewKey := ImageMissingText] else e1
  }

  /** The guard in `handleSubmit`: no validation errors and a selected file. */
  predicate CanSubmit(st: FormState) {
    |ValidateForm(st.data)| == 0 && st.selectedFile.Some?
  }

  lemma CanSubmitMeans(st: FormState)
    ensures CanSubmit(st) <==> st.data.selectedRating != 0 && Truthy(st.data.preview) && st.selectedFile.Some?
  {
    var e := ValidateForm(st.data);
    if st.data.selectedRating == 0 { assert RatingKey in e; }
    if !Truthy(st.data.preview) { assert PreviewKey in e; }
    if st.data.selectedRating != 0 && Truthy(st.data.preview) {
      assert e.Keys == {};
    }
  }

  /** The record sent to `POST /insertItems`. */
  function Payload(d: FormData, imageUrl: string, now: string): (p: ReviewPayload)
    ensures p.name == d.name && p.shopName == d.shopName && p.shopAddress == d.shopAddress
    ensures p.rating == d.selectedRating && p.review == d.reviewText && p.category == d.category
    ensures p.image == imageUrl && p.timestamp == now
  {
    ReviewPayload(d.name, d.shopName, d.shopAddress, d.selectedRating, d.reviewText,
                  imageUrl, d.category, now)
  }

  /** `handleSubmit`. `upload` is the Cloudinary upload's outcome, `insert`
      the outcome of `POST /insertItems`, and `now` the ISO timestamp taken
      when the payload is built. A blocked submit only sets the errors and
      the message; otherwise the image is uploaded (with nothing to delete),
      the review inserted when the upload produced a URL, and loading ends. */
  function HandleSubmit(st: FormState, now: string,
                        upload: ApiOutcome<MediaUpload.UploadReply>,
                        insert: ApiOutcome<()>): (r: (FormState, seq<Effect>))
    ensures r.0.errors == ValidateForm(st.data)
    ensures r.0.data == st.data && r.0.selectedFile == st.selectedFile
    ensures !CanSubmit(st) ==> r.1 == [] && r.0.isLoading == st.isLoading
                               && r.0.message == Some(Message(IncompleteText, true))
    ensures CanSubmit(st) ==> !r.0.isLoading && r.0.message.Some?
    ensures CanSubmit(st) ==> |r.1| >= 1 && r.1[0] == CloudinaryUpload(st.selectedFile.value)
  {
    var errs := ValidateForm(st.data);
    if |errs| > 0 || st.selectedFile.None? then
      (st.(errors := errs, message := Some(Message(IncompleteText, true))), [])
    else
      var (url, t) := MediaUpload.UploadToCloudinary(st.selectedFile.value, None, Thrown, upload);
      if !Truthy(url) then
        (st.(errors := errs, isLoading := false, message := Some(Message(SaveFailedText, true))), t)
      else
        var sent := t + [ApiInsertItem(Payload(st.data, url.value, now))];
        var msg := if insert.Ok? then Message(SavedText, false) else Message(SaveFailedText, true);
        (st.(errors := errs, isLoading := false, message := Some(msg)), sent)
  }

  /** The uploaded URL when the upload step produced a usable one. */
  function UploadedUrl(upload: ApiOutcome<MediaUpload.UploadReply>): Option<string> {
    if upload.Ok? && upload.data.status == 200 && Truthy(upload.data.secureUrl)
    then upload.data.secureUrl else None
  }

  /** What a submit sends: nothing when blocked; otherwise exactly one upload
      (never a delete, as there is no old image), followed by exactly one
      insert carrying the uploaded URL when there is one, and nothing else. */
  lemma SubmitRequests(st: FormState, now: string, upload: ApiOutcome<MediaUpload.UploadReply>,
                       insert: ApiOutcome<()>)
    ensures var t := HandleSubmit(st, now, upload, insert).1;
      && (!CanSubmit(st) ==> t == [])
      && (CanSubmit(st) && UploadedUrl(upload).None? ==> t == [CloudinaryUpload(st.selectedFile.value)])
      && (CanSubmit(st) && UploadedUrl(upload).Some? ==>
            t == [CloudinaryUpload(st.selectedFile.value),
                  ApiInsertItem(Payload(st.data, UploadedUrl(upload).value, now))])
  {
    if CanSubmit(st) {
      assert MediaUpload.DeletionTarget(None).None?;
    }
  }

  /** The outcome message after a submit that passed the guard: success only
      when both the upload produced a URL and the insert succeeded. */
  lemma SubmitMessage(st: FormState, now: string, upload: ApiOutcome<MediaUpload.UploadReply>,
                      insert: ApiOutcome<()>)
    requires CanSubmit(st)
    ensures var m := HandleSubmit(st, now, upload, insert).0.message.value;
      && (m == Message(SavedText, false) <==> UploadedUrl(upload).Some? && insert.Ok?)
      && (m != Message(SavedText, false) ==> m == Message(SaveFailedText, true))
  {
    assert MediaUpload.DeletionTarget(None).None?;
  }

  /** After the success notification: reset, close the dialog and reload the page. */
  function AfterSaved(st: FormState, username: string): (r: (FormState, seq<Effect>))
    ensures r.0 == ResetForm(st, username) && r.1 == [CloseDialog, ReloadPage]
  {
    (ResetForm(st, username), [CloseDialog, ReloadPage])
  }

  /** A freshly reset dialog cannot be submitted: nothing is sent and the
      "incomplete" message is shown, whatever the text fields hold. */
  lemma ResetFormCannotSubmit(st: FormState, username: string, now: string,
                              upload: ApiOutcome<MediaUpload.UploadReply>, insert: ApiOutcome<()>)
    ensures !CanSubmit(ResetForm(st, username))
    ensures HandleSubmit(ResetForm(st, username), now, upload, insert).1 == []
  {
    CanSubmitMeans(ResetForm(st, username));
  }

  /** Picking a rating and an image is exactly what a reset dialog lacks:
      once both are given (and the file read), submit passes the guard. */
  lemma RatingAndImageEnableSubmit(st: FormState, star: int, file: File, dataUrl: string)
    requires star != 0 && dataUrl != ""
    ensures CanSubmit(ImageLoaded(HandleRatingChange(st, star), file, dataUrl))
  {
    CanSubmitMeans(ImageLoaded(HandleRatingChange(st, star), file, dataUrl));
  }
}
