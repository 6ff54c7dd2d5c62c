# ReviewApp front end: the sequential rules, in Dafny

ReviewApp is a Next.js/React client for a shop-review service. The model
leaves out the rendering. It keeps the small decision rules underneath it,
each as a pure transition over an immutable record:

- the Cloudinary adapter: the regex that pulls a public id out of an image URL, and the ordered delete → upload → result protocol;
- the session store (`setUser`, `clearUser`, `setLoading`), the header's guarded `/me` probe and the logout;
- the review list: endpoint choice, timestamp normalisation and the id → like-count map;
- the review card: reactions, the server-authoritative like count, confirmed deletion and the display rules;
- the create and edit dialogs: field updates, validation, the submit guards and which requests they send, in what order;
- the sign-in / sign-up page: the password-match rule, the endpoint and the failure message.

Every network call is a parameter of type `ApiOutcome<T>`, either `Ok(data)`,
`HttpErr(status)` or `Thrown`. A step returns its new state together with the
requests and side effects it issues, as an `Effect` trace. Redux actions
appear in the trace as `Dispatch(action)` entries. `ApplyDispatches` replays
them through the session reducer. This makes "no request was sent", "the
delete precedes the upload" and "`/me` is requested at most once" statements
about sequences.

Modules, one per source file (plus shared types):

| file | module | source |
|---|---|---|
| base.dfy | `Base` | `Option`, `ApiOutcome`, `File`, JavaScript truthiness of optional strings, `Message` |
| reviews.dfy | `Reviews` | the review record, the insert/update payload, a like-count entry |
| effects.dfy | `Effects` | the effect trace and the replay of its dispatches |
| session.dfy | `Session` | src/app/login/redux/userSlice.ts |
| cloudinary_url.dfy | `CloudinaryUrl` | `getPublicIdFromUrl` in src/app/axios/uploadToCloudinary.ts |
| media_upload.dfy | `MediaUpload` | the rest of src/app/axios/uploadToCloudinary.ts |
| header.dfy | `Header` | src/app/components/Header.tsx |
| review_list.dfy | `ReviewList` | src/app/components/ReviewListApi.tsx |
| review_card.dfy | `ReviewCard` | src/app/components/ReviewCard.tsx |
| create_form.dfy | `CreateForm` | src/app/components/Form.tsx |
| edit_review.dfy | `EditReview` | src/app/components/EditReviewModal.tsx |
| login.dfy | `Login` | src/app/login/page.tsx |

The public-id regex `/\/v\d+\/(.+?)(?:\.\w+)?$/` is specified by its
JavaScript matching semantics:

- `PatternMatch(url, i, j, n)` says the pattern matches with the `/v<digits>/` segment starting at `i` and a capture `url[j..j+n]`.
- `.` excludes the four line terminators, and `\w` is `[A-Za-z0-9_]`.
- `LeftmostLazyMatch` adds what the engine reports: the leftmost start and the shortest capture at that start.

`GetPublicIdFromUrl` is an executable scan. It is proved to return exactly
that capture, and to return `None` exactly when the pattern matches nowhere.

Some behaviour in the code is subtler than a summary of it would suggest.
The model keeps it:

- A missing timestamp shows "Không có thời gian", a text distinct from the "Thời gian không hợp lệ" shown for an unparseable one (`ReviewList.FormatTimestamp`).
- A plain empty-string timestamp is falsy and shows "Không có thời gian". A wrapped `{ $date: "" }` goes on to the parser. So the two shapes agree only for non-empty strings (`WrappedAndPlainAgree`).
- The upload result is the `secure_url` only when the status is exactly 200; any other 2xx status gives null (`MediaUpload.UploadToCloudinary`). The create and edit dialogs then test that URL for truthiness, so an empty URL counts as a failed upload.
- A reaction `type` that names no reaction keeps the reaction the card already shows; only an absent `type` or an error clears it (`ReviewCard.ApplyUserLike`).
- `updateLikeCount` without a count stores `res.data[0]?.count || 0`, the first entry's count, whatever id it carries.
- In the edit dialog, the file reader's data URL is written into `form.image`, not just the preview.
- After a toggle, the card shows the chosen reaction. It then re-fetches the caller's reaction, and the answer to that re-fetch decides what stays shown (`HandleReaction`).
- The edit dialog does not clear its selected file after a successful save (`EditReview.HandleSubmit` keeps the file). A second save made before the list reload delivers a new `review` would upload again. Once the reload arrives, the sync effect clears the file (`EditReview.SyncFromReview`).
- The password error can outlive the mismatch when both password fields end up empty (`Login.StaleErrorWhenBothEmpty`). Once the confirmation is non-empty, the error is exact (`Login.ErrorInvariant`).

## Model

| member | source | states |
|---|---|---|
| Session.Initial | src/app/login/redux/userSlice.ts:16-20 | the initial session is logged out, has no user, is not loading, and is consistent |
| Session.Reduce | src/app/login/redux/userSlice.ts:26-36 | `setUser` logs in with the payload; `clearUser` logs out and drops the user; `setLoading` changes only the flag; the first two leave `isLoading` alone; every action preserves `isLoggedIn ⇔ user ≠ null` |
| Session.RunPreservesConsistency | src/app/login/redux/userSlice.ts:24-37 | any sequence of actions from a consistent state ends consistent |
| Session.ReachableStatesConsistent | src/app/login/redux/userSlice.ts:16-37 | every state reachable from the initial state satisfies `isLoggedIn ⇔ user ≠ null` |
| Session.ClearUserIdempotent | src/app/login/redux/userSlice.ts:30-33 | clearing twice is the same as clearing once |
| Session.LoadingStepsKeepUser | src/app/login/redux/userSlice.ts:34-36 | any run of `setLoading` actions leaves the user and the login flag unchanged |
| CloudinaryUrl.SegmentAt | src/app/axios/uploadToCloudinary.ts:7 | at a given start there is at most one `/v<digits>/` segment, and the function finds it when it exists |
| CloudinaryUrl.LazyCapture | src/app/axios/uploadToCloudinary.ts:7 | the lazy `(.+?)` group takes the shortest capture after which an optional `.<word>` extension reaches the end of the string, or none when no length works |
| CloudinaryUrl.GetPublicIdFromUrl | src/app/axios/uploadToCloudinary.ts:5-14 | a result is the capture of a leftmost, shortest regex match; the result is null exactly when the pattern matches nowhere; a result is never empty |
| CloudinaryUrl.LeftmostLazyMatchUnique | src/app/axios/uploadToCloudinary.ts:7 | the leftmost lazy match is unique, so the id is determined by the pattern |
| CloudinaryUrl.PublicIdIsTheCapture | src/app/axios/uploadToCloudinary.ts:7-9 | whenever the engine's match exists, the function returns exactly its capture |
| CloudinaryUrl.PublicIdSkipsPrefix | src/app/axios/uploadToCloudinary.ts:7 | a prefix that has no `v` after its first character, followed by a rest that does not start with `v`, does not change the extracted id |
| CloudinaryUrl.PublicIdOfCloudinaryUrl | src/app/axios/uploadToCloudinary.ts:7-9 | `https://res.cloudinary.com/demo/image/upload/v123/abc.jpg` gives `abc` |
| CloudinaryUrl.PublicIdOfVersionedPath | src/app/axios/uploadToCloudinary.ts:7-9 | `/v123/abc.jpg` gives `abc` |
| CloudinaryUrl.PublicIdKeepsInnerDots | src/app/axios/uploadToCloudinary.ts:7 | only the last extension is stripped: `/v1/a.b.jpg` gives `a.b` |
| CloudinaryUrl.PublicIdNeverEmpty | src/app/axios/uploadToCloudinary.ts:7 | stripping never empties the id: `/v1/.jpg` gives `.jpg` |
| CloudinaryUrl.PublicIdKeepsFolders | src/app/axios/uploadToCloudinary.ts:7 | without an extension the whole remainder is kept: `/v7/shops/a1` gives `shops/a1` |
| CloudinaryUrl.NoPublicIdAfterTrailingSegment | src/app/axios/uploadToCloudinary.ts:8-9 | `x/v123/`, whose only version segment ends the URL, gives null |
| CloudinaryUrl.NoPublicIdWhenSegmentsEndTheUrl | src/app/axios/uploadToCloudinary.ts:7-9 | for every URL in which each `/v<digits>/` segment ends the URL, the result is null |
| CloudinaryUrl.EarlierSegmentCapturesTrailingOne | src/app/axios/uploadToCloudinary.ts:7-9 | a trailing segment does not force null when an earlier one matches: `/v1/a/v123/` gives `a/v123/` |
| MediaUpload.DeletionTarget | src/app/axios/uploadToCloudinary.ts:37-42 | a deletion is due exactly when the old URL is truthy and yields a public id, and the target is that id |
| MediaUpload.DeleteFromCloudinary | src/app/axios/uploadToCloudinary.ts:17-28 | one delete request is issued, whatever its outcome |
| MediaUpload.UploadToCloudinary | src/app/axios/uploadToCloudinary.ts:31-76 | the result is the `secure_url` exactly when the upload succeeds with status 200; any other status or a rejection gives null; the trace is the delete (when due) followed by the upload, or the upload alone |
| MediaUpload.DeleteOutcomeIrrelevant | src/app/axios/uploadToCloudinary.ts:17-28 | the delete's outcome changes neither the result nor the trace, so a failed delete never aborts the upload |
| MediaUpload.DeleteBeforeUpload | src/app/axios/uploadToCloudinary.ts:37-58 | in every trace a delete comes before the upload |
| MediaUpload.ReplacingDeletesAbcFirst | src/app/axios/uploadToCloudinary.ts:37-58 | replacing the image at `.../v123/abc.jpg` sends a delete of `abc`, then the upload |
| Header.Decision | src/app/components/Header.tsx:43-52 | a probe response with a truthy `username` yields `setUser({username, zone})`; any other response, or any error, yields `clearUser` |
| Header.ProbeTrace | src/app/components/Header.tsx:36-86 | the probe starts with `setLoading(true)` and the `/me` request, and ends with `setLoading(false)` |
| Header.CheckLoginStatus | src/app/components/Header.tsx:36-86 | the session becomes `setLoading(true)`, then the decision, then `setLoading(false)` applied to the starting session: not loading, consistent, and holding the named user exactly when the response names one (no user otherwise); the trace is the probe's |
| Header.ProbeDispatches | src/app/components/Header.tsx:38-85 | the probe dispatches exactly `setLoading(true)`, the decision and `setLoading(false)`, in that order |
| Header.ProbeSession | src/app/components/Header.tsx:43-52 | after the probe, the session is the decision applied to the starting session, with loading off |
| Header.ProbeOutcomes | src/app/components/Header.tsx:36-86 | after the probe the session is not loading and is consistent; it is logged in as the named user or logged out; the probe navigates to the login page once on a 401 and otherwise never; `/me` is requested once |
| Header.ProbeEffect | src/app/components/Header.tsx:88-91 | the guarded effect always leaves `hasAttemptedLogin` set and does nothing once it is set; otherwise it sends the probe's requests and leaves the session the probe produces: not loading, with the user exactly when `/me` named one |
| Header.AttemptedEffectsAreNoOps | src/app/components/Header.tsx:88-91 | once a probe has been attempted, any number of effect re-runs change nothing and send nothing |
| Header.ProbeRunsAtMostOnce | src/app/components/Header.tsx:88-91 | across any number of effect runs, `/me` is requested at most once and the login redirect happens at most once |
| Header.LogoutDispatches | src/app/components/Header.tsx:98-110 | logout dispatches exactly `clearUser` |
| Header.HandleLogout | src/app/components/Header.tsx:98-110 | whatever the logout request's outcome, the cookie is removed, the user is cleared and the app navigates to login; `isLoading` is untouched |
| ReviewList.Normalize | src/app/components/ReviewListApi.tsx:35-50 | a missing or empty plain timestamp is "missing"; the `{ $date }` and plain shapes hand their string on; any other shape is unsupported |
| ReviewList.RenderDate | src/app/components/ReviewListApi.tsx:51-75 | an unparseable string gives "Thời gian không hợp lệ"; otherwise the rendering of the parsed instant |
| ReviewList.FormatTimestamp | src/app/components/ReviewListApi.tsx:35-76 | a missing timestamp gives "Không có thời gian", an unsupported shape gives "Thời gian không hợp lệ", and both string shapes go through the same parse and render path |
| ReviewList.WrappedAndPlainAgree | src/app/components/ReviewListApi.tsx:42-66 | `{ $date: s }` and the plain string `s` format identically for every non-empty `s` |
| ReviewList.FormatTimestampOutcomes | src/app/components/ReviewListApi.tsx:35-76 | the formatter is total, and its result is one of the two fixed texts or a rendering |
| ReviewList.CategoryQuery | src/app/components/ReviewListApi.tsx:80-83 | `All` becomes the empty query; any other category passes through unchanged |
| ReviewList.ListEndpoint | src/app/components/ReviewListApi.tsx:80-83 | pathname `/` selects `/allItems?category=`; any other path selects `/profile?category=` |
| ReviewList.ListEndpointRoundTrip | src/app/components/ReviewListApi.tsx:80-83 | the endpoint can be decoded back to (is the feed, category query) |
| ReviewList.ListEndpointInjective | src/app/components/ReviewListApi.tsx:80-83 | two endpoints are equal exactly when they agree on feed-or-profile and on the category query |
| ReviewList.LoadData | src/app/components/ReviewListApi.tsx:78-90 | one list request to the selected endpoint; success replaces the whole list and failure empties it; the counts are untouched |
| ReviewList.FoldCounts | src/app/components/ReviewListApi.tsx:98-107 | the folded map has the old keys plus every entry id; ids absent from the entries keep their value; each id gets the count of its last entry |
| ReviewList.FetchLikeCounts | src/app/components/ReviewListApi.tsx:92-112 | an empty list sends nothing and changes nothing; otherwise one batch request for the list's ids, in order; success replaces the map with the fold of the response; failure keeps the state |
| ReviewList.UpdateLikeCount | src/app/components/ReviewListApi.tsx:114-128 | only key `id` changes; a given count is stored verbatim with no request; without one, `[id]` is fetched and the first entry's count, or 0, is stored; on failure nothing changes |
| ReviewList.LaterDuplicateWins | src/app/components/ReviewListApi.tsx:98-107 | when an id occurs twice in the batch response, the later entry's count is stored |
| ReviewCard.FromAlt | src/app/components/ReviewCard.tsx:70-81 | a recognised `type` names the reaction with that `alt`; an unrecognised one names none |
| ReviewCard.AltRoundTrip | src/app/components/ReviewCard.tsx:70-81 | every reaction is recognised from its own `alt`, so lookup inverts `Alt` |
| ReviewCard.ApplyUserLike | src/app/components/ReviewCard.tsx:84-103 | a recognised `type` selects its reaction; an unrecognised one keeps the current reaction; an absent or empty `type`, or an error, clears it |
| ReviewCard.FetchUserLike | src/app/components/ReviewCard.tsx:84-103 | one request for the card's id, and only the reaction changes |
| ReviewCard.HandleReaction | src/app/components/ReviewCard.tsx:124-147 | a failed toggle changes neither the reaction nor the counts; a successful one closes the picker, re-fetches the reaction (after showing the chosen one), and passes the server's count to `updateLikeCount`; the toggle request carries the chosen `alt`; after the toggle and the re-fetch, a batch re-count for this id is sent exactly when the response carries no count |
| ReviewCard.ToggleAdoptsServerCount | src/app/components/ReviewCard.tsx:130-143 | a successful toggle carrying count `c` sets this id's count to `c` and leaves every other id alone |
| ReviewCard.ToggleShowsChosen | src/app/components/ReviewCard.tsx:130-140 | unless the re-fetch names another reaction or fails, the card ends showing the chosen reaction |
| ReviewCard.HandleDelete | src/app/components/ReviewCard.tsx:108-122 | a declined confirmation sends nothing; a confirmed one sends one DELETE, then alerts "Xóa thành công!" on success or "Xóa thất bại!" on failure, and reloads the list exactly when the DELETE succeeds; a successful delete sends exactly the DELETE, the success alert and the reload |
| ReviewCard.DeleteAlertMatchesReload | src/app/components/ReviewCard.tsx:114-121 | the success alert appears exactly when the list is reloaded; a failed delete sends only the request and the failure alert |
| ReviewCard.DisplayedCount | src/app/components/ReviewCard.tsx:270-272 | the count shown is the map's entry for the id, or 0 |
| ReviewCard.LikeIconIffPositiveCount | src/app/components/ReviewCard.tsx:250-258 | the like icon shows exactly when the displayed count is positive |
| ReviewCard.DisplaysAdoptedCount | src/app/components/ReviewCard.tsx:139-143 | after the server's count `c` is adopted, the card displays `c` |
| ReviewCard.ReactionIconIffNotLike | src/app/components/ReviewCard.tsx:260-268 | the extra reaction icon shows exactly when the caller reacted with something other than a plain like |
| ReviewCard.ButtonLabel | src/app/components/ReviewCard.tsx:304-325 | the button is labelled with the current reaction's `alt`, or with the plain like's when there is none |
| ReviewCard.ButtonClick | src/app/components/ReviewCard.tsx:295-296 | a click on the button itself reacts with the picker's first reaction, the one its default label names |
| ReviewCard.HighlightedStars | src/app/components/ReviewCard.tsx:189-199 | of the five stars, the number highlighted is the rating clamped to 0..5 |
| ReviewCard.HighlightedPrefix | src/app/components/ReviewCard.tsx:189-199 | among the first `k` stars, the highlighted ones number the rating clamped to 0..k (star `i` is lit iff `i < rating`) |
| ReviewCard.CategoryLabel | src/app/components/ReviewCard.tsx:178-183 | no badge text for an empty category; otherwise only the first character is upper-cased and the rest is kept |
| ReviewCard.CategoryLabelStable | src/app/components/ReviewCard.tsx:178-183 | labelling is idempotent, and the six fixed category names are shown unchanged |
| CreateForm.UsernameOf | src/app/components/Form.tsx:21 | the user's `username`, or empty when there is no user or no name |
| CreateForm.ResetForm | src/app/components/Form.tsx:77-91 | `name` becomes the username, every other text field is empty, the rating is 0, there is no preview and no file, and errors and message are cleared; `isLoading` is untouched |
| CreateForm.InitialForm | src/app/components/Form.tsx:22-54 | once the mount effect for `username` has run, the dialog is a reset dialog that is not loading |
| CreateForm.HandleClose | src/app/components/Form.tsx:72-75 | closing resets the dialog and closes it |
| CreateForm.HandleChange | src/app/components/Form.tsx:109-120 | only the named field changes, and only that field's error entry is cleared |
| CreateForm.HandleRatingChange | src/app/components/Form.tsx:122-128 | the rating becomes `k`, and only the rating error is cleared |
| CreateForm.ImageLoaded | src/app/components/Form.tsx:93-107 | once read, the preview is the data URL, the file is kept and the image error is cleared |
| CreateForm.ValidateForm | src/app/components/Form.tsx:138-144 | a rating error exactly when the rating is 0; an image error exactly when there is no preview; no other key; the fixed messages |
| CreateForm.CanSubmitMeans | src/app/components/Form.tsx:149-158 | the submit guard passes exactly when the rating is non-zero, a preview exists and a file is selected |
| CreateForm.Payload | src/app/components/Form.tsx:168-177 | `shop_name ← shopName`, `shop_address ← shopAddress`, `rating ← selectedRating`, `review ← reviewText`, `image ←` the uploaded URL, the timestamp is the current time, and `name` and `category` are copied |
| CreateForm.HandleSubmit | src/app/components/Form.tsx:146-199 | the errors become the validation result; a blocked submit sends nothing, shows "Vui lòng điền đầy đủ thông tin!" and leaves loading alone; otherwise the upload goes first, a message is set and loading ends |
| CreateForm.SubmitRequests | src/app/components/Form.tsx:149-179 | a blocked submit sends nothing; otherwise one upload and never a delete, then exactly one insert of the mapped payload when the upload produced a URL, and no insert when it did not |
| CreateForm.SubmitMessage | src/app/components/Form.tsx:163-195 | after the guard, "Thêm thành công!" is shown exactly when the upload produced a URL and the insert succeeded; otherwise " Lưu đánh giá lỗi!" |
| CreateForm.AfterSaved | src/app/components/Form.tsx:184-189 | after a save, the dialog is reset and closed and the page reloaded |
| CreateForm.ResetFormCannotSubmit | src/app/components/Form.tsx:77-91 | a freshly reset dialog fails the guard and sends nothing |
| CreateForm.RatingAndImageEnableSubmit | src/app/components/Form.tsx:93-158 | once a non-zero rating is chosen and an image read, the guard passes |
| EditReview.FieldsOf | src/app/components/EditReviewModal.tsx:40-48 | the form fields are seeded from the review, field for field |
| EditReview.PreviewOf | src/app/components/EditReviewModal.tsx:49 | the preview is the review's image, or none when it is empty |
| EditReview.InitialEdit | src/app/components/EditReviewModal.tsx:39-56 | a fresh dialog holds the review's fields and preview, no file, no message, and is not loading |
| EditReview.SyncFromReview | src/app/components/EditReviewModal.tsx:58-72 | a change of review resets the fields and preview from it and clears the file and the message |
| EditReview.SyncForgetsEdits | src/app/components/EditReviewModal.tsx:58-72 | after a sync the state depends only on the review (and the loading flag) |
| EditReview.HandleChange | src/app/components/EditReviewModal.tsx:91-98 | only the named field changes |
| EditReview.HandleRatingChange | src/app/components/EditReviewModal.tsx:113-115 | only the rating changes |
| EditReview.ImageChosen | src/app/components/EditReviewModal.tsx:100-103 | a picked file is kept at once |
| EditReview.ImageLoaded | src/app/components/EditReviewModal.tsx:104-108 | the data URL becomes both the preview and `form.image` |
| EditReview.PutPayload | src/app/components/EditReviewModal.tsx:148-152 | the PUT body is the form with `image` overridden and a fresh timestamp |
| EditReview.HandleSubmit | src/app/components/EditReviewModal.tsx:125-166 | loading always ends; with a file, exactly one upload is sent; a file upload with no usable URL gives "Tải ảnh lên thất bại!" and keeps the form; otherwise the PUT's success gives "Cập nhật thành công!" and its failure "Cập nhật thất bại!" with the form kept; the form changes at most in `image`, and only on success; the preview and file are untouched |
| EditReview.NoFileJustPuts | src/app/components/EditReviewModal.tsx:125-152 | with no new file, no upload or delete happens, and exactly one PUT carries the current `form.image`; no field validation stands in the way |
| EditReview.FileReplacesStoredImage | src/app/components/EditReviewModal.tsx:129-152 | with a new file, the sequence begins with the replace protocol for the review's stored image, and the PUT follows, carrying the uploaded URL, exactly when the upload produced one |
| EditReview.FailedUploadSendsNoPut | src/app/components/EditReviewModal.tsx:137-144 | an upload without a URL sends no PUT, leaves the form alone and shows "Tải ảnh lên thất bại!" |
| EditReview.FailedReplaceLeavesDanglingImage | src/app/components/EditReviewModal.tsx:130-144 | when the stored image has a public id and the new file's upload yields no URL (a rejection, a status other than 200, or no `secure_url`), a request deleting the old asset has been sent and no PUT moves the review off it |
| EditReview.PutOutcomeDecidesForm | src/app/components/EditReviewModal.tsx:153-165 | without a file, success shows "Cập nhật thành công!" and failure "Cập nhật thất bại!", with the form unchanged in both cases |
| EditReview.SavedFormHoldsUploadedUrl | src/app/components/EditReviewModal.tsx:147-160 | a successful replace and save leaves `form.image` at the uploaded URL, with the success message |
| EditReview.UntouchedSaveEchoesReview | src/app/components/EditReviewModal.tsx:39-152 | saving a freshly opened dialog sends the review back unchanged, apart from a fresh timestamp |
| EditReview.AfterUpdated | src/app/components/EditReviewModal.tsx:156-160 | after an update, the list is reloaded first and the dialog closed second, and nothing else happens |
| Login.Initial | src/app/login/page.tsx:16-23 | sign-in mode, no interaction yet, empty fields and no error |
| Login.HandleInputChange | src/app/login/page.tsx:25-46 | only the edited field changes; editing the confirmation sets the error to "Passwords không trùng nhau" when it differs from the password and to empty otherwise; editing the password while the confirmation is non-empty does the same against the confirmation; otherwise the error is untouched |
| Login.ToggleMode | src/app/login/page.tsx:183-186 | the mode flips and interaction is recorded; the fields and the error are kept |
| Login.Endpoint | src/app/login/page.tsx:60 | `/register` in sign-up mode, `/login` otherwise |
| Login.FailureText | src/app/login/page.tsx:74-82 | `detail` when truthy, else `message` when truthy, else the fixed fallback text; a non-axios error gives "Lỗi không xác định."; never empty |
| Login.HandleSubmit | src/app/login/page.tsx:48-84 | a sign-up with unequal passwords sets the error and sends nothing; otherwise the credentials are posted to the mode's endpoint, and one follow-up effect comes after; the fields and the password error are kept |
| Login.SubmitOutcomes | src/app/login/page.tsx:63-82 | a registration returns to sign-in mode, with every other field (the password error included) unchanged, and alerts success; a login navigates home, and nothing else does; a failure alerts its text and changes nothing |
| Login.StepKeepsInvariant | src/app/login/page.tsx:25-84 | every event preserves the password-error invariant |
| Login.RunKeepsInvariant | src/app/login/page.tsx:25-84 | any sequence of events preserves the password-error invariant |
| Login.ReachableStatesKeepInvariant | src/app/login/page.tsx:16-84 | every reachable state's error is empty or the mismatch text, and with a non-empty confirmation it shows exactly when the passwords differ |
| Login.DisabledMeansMismatch | src/app/login/page.tsx:163 | on every reachable state the submit button is disabled exactly in sign-up mode while the mismatch text is shown, and, with a non-empty confirmation, exactly when the passwords differ |
| Login.EnabledSignUpSends | src/app/login/page.tsx:52-63 | in sign-up mode with a non-empty confirmation, a submit that reaches the handler with the button enabled sends the register request |
| Login.StaleErrorWhenBothEmpty | src/app/login/page.tsx:32-45 | there is a reachable state where both passwords are equal and empty, yet sign-up stays disabled |

## Left out

- Date parsing and the `vi-VN` / `Asia/Ho_Chi_Minh` rendering in `formatTimestamp`: these belong to the host library. They appear as the function parameters `parse` and `render`, and a parse that throws is folded into `parse` returning `None`.
- HTTP and Cloudinary transport (axios, multipart form data, the `upload_preset`, status handling inside axios): each call is an outcome parameter plus one trace entry.
- src/app/axios/api.js is not part of this model. It is an axios instance whose interceptor reads localStorage.
- src/app/login/redux/store.ts, next.config.ts, src/app/routes/route.js and src/app/page.tsx: configuration, routing and layout, with no decision logic.
- LoadingOverlay, all JSX and CSS, the body-overflow handling, `FileReader` (its result is the `dataUrl` parameter), `window.location.reload` and `confirm` (a boolean input). `alert` is recorded as an `Alert` trace entry.
- Timers and animations: the 500 ms notification exit, the 2000 ms auto-close and the 1 s reaction-picker hover delay. The steps that follow a timer are modelled as their own functions (`AfterSaved`, `AfterUpdated`); the delay itself is not.
- Interleavings of asynchronous callbacks, concurrent flows and responses that arrive after unmount. Each flow is modelled as one sequential step.
- MediaUpload.UploadToCloudinary: console logging and the `alert` calls are not recorded in its trace.
- ReviewCard.CategoryLabel: upper-cases ASCII letters only, whereas `toUpperCase` also maps non-ASCII letters.
- Login.HandleSubmit: the browser's constraint validation is not modelled. The Email and Password inputs are `required` and Email has `type="email"` (src/app/login/page.tsx:125-138); in sign-up mode ConfirmPassword is `required` too (src/app/login/page.tsx:142-150). An empty or malformed field stops the submit before `handleSubmit` runs, whereas the model starts at the handler and posts. Login.EnabledSignUpSends is stated for the handler only, for the same reason.
- CreateForm.HandleSubmit: the browser's `required` attribute on the text inputs is not modelled; only the component's own guard is.
- Header.Decision: a `/me` response without `zone` would give a user whose zone is undefined; the model requires the zone to be a string.
- ReviewCard.HandleReaction: a toggle response with no body, where reading `count` throws after the reaction has been set, is not modelled; the response's `count` is an optional number.
- ReviewCard: the reactions' image sources and colours, the hover handling of the picker, and the `setSelectedCategory` call on a badge click.
