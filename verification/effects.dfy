/** What a step does to the outside world, in order: the requests it issues,
    the store actions it dispatches, navigation, cookies, alerts and reloads. */
module Effects {
  import opened Base
  import opened Session
  import opened Reviews

  datatype Effect =
    | Dispatch(action: SessionAction)          // store dispatch
    | ApiGetMe                                 // GET /me
    | ApiLogout                                // POST /logout
    | RemoveTokenCookie                        // delete the `token` cookie
    | NavigateToLogin                          // router push to /login
    | NavigateHome                             // router push to /
    | ApiGetList(endpoint: string)             // GET /allItems?... or /profile?...
    | ApiBatchCount(ids: seq<string>)          // POST /likes/batch-count
    | ApiGetUserLike(itemId: string)           // GET /likes/user?id=
    | ApiToggleLike(itemId: string, kind: string) // POST /likes/toggle
    | ApiDeleteItem(itemId: string)            // DELETE /deleteItem/<id>
    | ApiDeleteImage(publicId: string)         // POST /api/deleteImage
    | CloudinaryUpload(file: File)             // POST <cloudinary>/image/upload
    | ApiInsertItem(payload: ReviewPayload)    // POST /insertItems
    | ApiUpdateItem(itemId: string, payload: ReviewPayload) // PUT /updateItem/<id>
    | ApiAuth(endpoint: string, email: string, password: string) // POST /login or /register
    | Alert(text: string)                      // window.alert
    | ReloadList                               // the list's loadData callback
    | ReloadPage                               // window.location.reload
    | CloseDialog                              // the dialog's close callback

  /** The store actions in a trace, in dispatch order. */
  function Dispatched(t: seq<Effect>): (r: seq<SessionAction>)
    ensures |r| <= |t|
  {
    if |t| == 0 then []
    else (if t[0].Dispatch? then [t[0].action] else []) + Dispatched(t[1..])
  }

  /** The session after applying the dispatches of a trace. */
  function ApplyDispatches(s: SessionState, t: seq<Effect>): SessionState
  {
    Run(s, Dispatched(t))
  }

  lemma DispatchedSingle(e: Effect)
    ensures Dispatched([e]) == (if e.Dispatch? then [e.action] else [])
  {
    assert [e][1..] == [];
  }

  lemma {:induction false} DispatchedAppend(a: seq<Effect>, b: seq<Effect>)
    ensures Dispatched(a + b) == Dispatched(a) + Dispatched(b)
    decreases |a|
  {
    if |a| > 0 {
      assert (a + b)[0] == a[0];
      assert (a + b)[1..] == a[1..] + b;
      DispatchedAppend(a[1..], b);
    } else {
      assert a + b == b;
    }
  }
}
