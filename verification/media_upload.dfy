/** `uploadToCloudinary`: when replacing an image, first ask the backend to
    delete the old one (failures are logged and swallowed), then upload the
    new file straight to the storage provider, and report its URL or null. */
module MediaUpload {
  import opened Base
  import opened Effects
  import opened CloudinaryUrl

  /** The parts of the storage provider's reply that the code reads. */
  datatype UploadReply = UploadReply(status: int, secureUrl: Option<string>)

  /** The public id to delete before uploading: only a truthy previous URL
      from which an id can be extracted leads to a deletion. */
  function DeletionTarget(oldImageUrl: Option<string>): (r: Option<string>)
    ensures r.Some? <==> Truthy(oldImageUrl) && GetPublicIdFromUrl(oldImageUrl.value).Some?
    ensures r.Some? ==> r == GetPublicIdFromUrl(oldImageUrl.value) && |r.value| >= 1
  {
    if Truthy(oldImageUrl) then GetPublicIdFromUrl(oldImageUrl.value) else None
  }

  /** `deleteFromCloudinary`: one request; a non-200 status or a rejection
      is only logged, so the caller sees the same thing in every case. */
  function DeleteFromCloudinary(publicId: string, outcome: ApiOutcome<int>): (t: seq<Effect>)
    ensures t == [ApiDeleteImage(publicId)]
  {
    match outcome
    case Ok(status) => [ApiDeleteImage(publicId)]
    case HttpErr(_) => [ApiDeleteImage(publicId)]
    case Thrown => [ApiDeleteImage(publicId)]
  }

  /** The whole sequence: optional delete, then upload, then the result.
      `deleteOutcome` is the outcome of the delete request when one is sent,
      `upload` the outcome of the upload request. */
  function UploadToCloudinary(file: File, oldImageUrl: Option<string>,
                              deleteOutcome: ApiOutcome<int>,
                              upload: ApiOutcome<UploadReply>): (r: (Option<string>, seq<Effect>))
    ensures r.0.Some? <==> upload.Ok? && upload.data.status == 200 && upload.data.secureUrl.Some?
    ensures r.0.Some? ==> r.0 == upload.data.secureUrl
    ensures DeletionTarget(oldImageUrl).Some? ==>
              r.1 == [ApiDeleteImage(DeletionTarget(oldImageUrl).value), CloudinaryUpload(file)]
    ensures DeletionTarget(oldImageUrl).None? ==> r.1 == [CloudinaryUpload(file)]
  {
    var deletes :=
      match DeletionTarget(oldImageUrl)
      case Some(id) => DeleteFromCloudinary(id, deleteOutcome)
      case None => [];
    var trace := deletes + [CloudinaryUpload(file)];
    match upload
    case Ok(reply) => (if reply.status == 200 then reply.secureUrl else None, trace)
    case HttpErr(_) => (None, trace)
    case Thrown => (None, trace)
  }

  /** The delete's outcome never aborts the upload and never changes the
      result or the requests issued. */
  lemma DeleteOutcomeIrrelevant(file: File, oldImageUrl: Option<string>,
                                d1: ApiOutcome<int>, d2: ApiOutcome<int>,
                                upload: ApiOutcome<UploadReply>)
    ensures UploadToCloudinary(file, oldImageUrl, d1, upload) == UploadToCloudinary(file, oldImageUrl, d2, upload)
  {
  }

  /** Every delete request comes before the upload, and the upload is the
      last request of the sequence. */
  lemma DeleteBeforeUpload(file: File, oldImageUrl: Option<string>,
                           d: ApiOutcome<int>, upload: ApiOutcome<UploadReply>, a: nat, b: nat)
    requires a < |UploadToCloudinary(file, oldImageUrl, d, upload).1|
    requires b < |UploadToCloudinary(file, oldImageUrl, d, upload).1|
    requires UploadToCloudinary(file, oldImageUrl, d, upload).1[a].ApiDeleteImage?
    requires UploadToCloudinary(file, oldImageUrl, d, upload).1[b].CloudinaryUpload?
    ensures a < b
  {
  }

  /** The replacement of `https://res.cloudinary.com/.../v123/abc.jpg`
      deletes public id `abc` before uploading. */
  lemma ReplacingDeletesAbcFirst(file: File, d: ApiOutcome<int>, upload: ApiOutcome<UploadReply>)
    ensures UploadToCloudinary(file, Some("https://res.cloudinary.com/demo/image/upload/v123/abc.jpg"), d, upload).1
            == [ApiDeleteImage("abc"), CloudinaryUpload(file)]
  {
    PublicIdOfCloudinaryUrl();
  }
}
