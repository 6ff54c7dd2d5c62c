/** One review card: the caller's own reaction (fetched, toggled), the
    server-authoritative like count, confirmed deletion, and the small
    display rules (count fallback, star highlighting, category label). */
module ReviewCard {
  import opened Base
  import opened Reviews
  import opened Effects
  import ReviewList

  /** The seven reactions, in picker order. */
  datatype Reaction = Like | Love | Lovely | Haha | Wow | Sad | Angry

  const Picker: seq<Reaction> := [Like, Love, Lovely, Haha, Wow, Sad, Angry]

  /** The `alt` text of a reaction, which is also the `type` exchanged with
      the server. */
  function Alt(r: Reaction): string {
    match r
    case Like => "Thích"
    case Love => "Yêu thích"
    case Lovely => "Thương thương"
    case Haha => "Haha"
    case Wow => "Wow"
    case Sad => "Buồn"
    case Angry => "Phẫn nộ"
  }

  /** `reactions.find(r => r.alt === t)` over a list of reactions. */
  function FindIn(rs: seq<Reaction>, t: string): (r: Option<Reaction>)
    ensures r.Some? ==> r.value in rs && Alt(r.value) == t
    ensures r.None? ==> forall x :: x in rs ==> Alt(x) != t
  {
    if |rs| == 0 then None
    else if Alt(rs[0]) == t then Some(rs[0])
    else FindIn(rs[1..], t)
  }

  /** The reaction the server's `type` string names, if any. */
  function FromAlt(t: string): (r: Option<Reaction>)
    ensures r.Some? ==> Alt(r.value) == t
    ensures r.None? ==> forall x: Reaction :: Alt(x) != t
  {
    PickerListsAll();
    FindIn(Picker, t)
  }

  /** The picker offers every reaction. */
  lemma PickerListsAll()
    ensures forall x: Reaction :: x in Picker
  {
    forall x: Reaction ensures x in Picker {
      match x
      case Like => assert Picker[0] == x;
      case Love => assert Picker[1] == x;
      case Lovely => assert Picker[2] == x;
      case Haha => assert Picker[3] == x;
      case Wow => assert Picker[4] == x;
      case Sad => assert Picker[5] == x;
      case Angry => assert Picker[6] == x;
    }
  }

  /** Every reaction is recognised from its own `alt`: the seven strings are
      distinct, so the lookup inverts `Alt`. */
  lemma AltRoundTrip(r: Reaction)
    ensures FromAlt(Alt(r)) == Some(r)
  {
    var found := FromAlt(Alt(r));
    assert Alt(found.value) == Alt(r);
  }

  /** The card's own state: the caller's reaction and whether the picker is open. */
  datatype CardState = CardState(react: Option<Reaction>, showReactions: bool)

  /** The reaction after a `GET /likes/user` answer: a recognised `type`
      selects its reaction, an unrecognised one keeps the current reaction,
      and a missing (or empty) `type` or an error clears it. */
  function ApplyUserLike(current: Option<Reaction>, outcome: ApiOutcome<Option<string>>): (r: Option<Reaction>)
    ensures outcome.Ok? && Truthy(outcome.data) && FromAlt(outcome.data.value).Some? ==>
              r == FromAlt(outcome.data.value)
    ensures outcome.Ok? && Truthy(outcome.data) && FromAlt(outcome.data.value).None? ==> r == current
    ensures !(outcome.Ok? && Truthy(outcome.data)) ==> r == None
  {
    match outcome
    case Ok(t) =>
      if Truthy(t) then
        match FromAlt(t.value)
        case Some(reaction) => Some(reaction)
        case None => current
      else None
    case HttpErr(_) => None
    case Thrown => None
  }

  /** `fetchUserLike`: one request for the card's id. */
  function FetchUserLike(id: string, card: CardState, outcome: ApiOutcome<Option<string>>): (r: (CardState, seq<Effect>))
    ensures r.1 == [ApiGetUserLike(id)]
    ensures r.0 == card.(react := ApplyUserLike(card.react, outcome))
  {
    (card.(react := ApplyUserLike(card.react, outcome)), [ApiGetUserLike(id)])
  }

  /** `handleReaction`: `POST /likes/toggle` with the chosen `alt`. On
      success the chosen reaction is shown, the picker closed, the caller's
      reaction re-fetched (`refetch`), and the count for this id set from the
      response's `count` (`recount` is the outcome of the re-count sent when
      the response carries none). On failure nothing changes. */
  function HandleReaction(id: string, card: CardState, counts: map<string, int>, chosen: Reaction,
                          toggle: ApiOutcome<Option<int>>,
                          refetch: ApiOutcome<Option<string>>,
                          recount: ApiOutcome<seq<CountEntry>>): (r: (CardState, map<string, int>, seq<Effect>))
    ensures !toggle.Ok? ==> r.0 == card && r.1 == counts && r.2 == [ApiToggleLike(id, Alt(chosen))]
    ensures toggle.Ok? ==> !r.0.showReactions && r.0.react == ApplyUserLike(Some(chosen), refetch)
    ensures toggle.Ok? ==> r.1 == ReviewList.UpdateLikeCount(counts, id, toggle.data, recount).0
    ensures toggle.Ok? ==> |r.2| >= 2 && r.2[..2] == [ApiToggleLike(id, Alt(chosen)), ApiGetUserLike(id)]
    ensures toggle.Ok? && toggle.data.Some? ==> r.2 == [ApiToggleLike(id, Alt(chosen)), ApiGetUserLike(id)]
    ensures toggle.Ok? && toggle.data.None? ==>
              r.2 == [ApiToggleLike(id, Alt(chosen)), ApiGetUserLike(id), ApiBatchCount([id])]
  {
    var sent := [ApiToggleLike(id, Alt(chosen))];
    match toggle
    case Ok(count) =>
      var shown := card.(react := Some(chosen), showReactions := false);
      var (refetched, t1) := FetchUserLike(id, shown, refetch);
      var (counts', t2) := ReviewList.UpdateLikeCount(counts, id, count, recount);
      (refetched, counts', sent + t1 + t2)
    case HttpErr(_) => (card, counts, sent)
    case Thrown => (card, counts, sent)
  }

  /** A successful toggle adopts the server's count verbatim for this id and
      leaves every other id's count alone. */
  lemma ToggleAdoptsServerCount(id: string, card: CardState, counts: map<string, int>, chosen: Reaction,
                                c: int, refetch: ApiOutcome<Option<string>>, recount: ApiOutcome<seq<CountEntry>>)
    ensures var counts' := HandleReaction(id, card, counts, chosen, Ok(Some(c)), refetch, recount).1;
      && id in counts' && counts'[id] == c
      && (forall k :: k != id ==> (k in counts' <==> k in counts))
      && (forall k :: k != id && k in counts ==> counts'[k] == counts[k])
  {
  }

  /** Unless the re-fetch names a different reaction or fails, the card ends
      showing the chosen reaction. */
  lemma ToggleShowsChosen(id: string, card: CardState, counts: map<string, int>, chosen: Reaction,
                          toggle: ApiOutcome<Option<int>>, refetch: ApiOutcome<Option<string>>,
                          recount: ApiOutcome<seq<CountEntry>>)
    requires toggle.Ok?
    requires refetch.Ok? && Truthy(refetch.data)
    requires FromAlt(refetch.data.value).None? || FromAlt(refetch.data.value) == Some(chosen)
    ensures HandleReaction(id, card, counts, chosen, toggle, refetch, recount).0.react == Some(chosen)
  {
  }

  const DeletedText := "Xóa thành công!"
  const DeleteFailedText := "Xóa thất bại!"

  /** `handleDelete`: nothing without confirmation; otherwise one `DELETE`,
      an alert, and a list reload only on success. */
  function HandleDelete(id: string, confirmed: bool, outcome: ApiOutcome<()>): (t: seq<Effect>)
    ensures !confirmed ==> t == []
    ensures confirmed ==> |t| >= 2 && t[0] == ApiDeleteItem(id)
    ensures confirmed ==> t[1] == Alert(if outcome.Ok? then DeletedText else DeleteFailedText)
    ensures confirmed && outcome.Ok? ==> t == [ApiDeleteItem(id), Alert(DeletedText), ReloadList]
    ensures ReloadList in t <==> confirmed && outcome.Ok?
    ensures multiset(t)[ApiDeleteItem(id)] == (if confirmed then 1 else 0)
  {
    if !confirmed then []
    else
      match outcome
      case Ok(_) => [ApiDeleteItem(id), Alert(DeletedText), ReloadList]
      case HttpErr(_) => [ApiDeleteItem(id), Alert(DeleteFailedText)]
      case Thrown => [ApiDeleteItem(id), Alert(DeleteFailedText)]
  }

  /** A confirmed delete reports success exactly when it reloads the list,
      and a failed one sends nothing beyond the request and its alert. */
  lemma DeleteAlertMatchesReload(id: string, outcome: ApiOutcome<()>)
    ensures var t := HandleDelete(id, true, outcome);
      && (Alert(DeletedText) in t <==> ReloadList in t)
      && (!outcome.Ok? ==> t == [ApiDeleteItem(id), Alert(DeleteFailedText)])
  {
  }

  /** The count shown under a card: `likeCounts[id] || 0`. */
  function DisplayedCount(counts: map<string, int>, id: string): (n: int)
    ensures id in counts ==> n == counts[id]
    ensures id !in counts ==> n == 0
  {
    if id in counts then counts[id] else 0
  }

  /** The like icon is shown when `likeCounts[id] > 0`. */
  predicate ShowsLikeIcon(counts: map<string, int>, id: string) {
    id in counts && counts[id] > 0
  }

  /** The icon shows exactly when the displayed count is positive. */
  lemma LikeIconIffPositiveCount(counts: map<string, int>, id: string)
    ensures ShowsLikeIcon(counts, id) <==> DisplayedCount(counts, id) > 0
  {
  }

  /** After a toggle response carrying `c`, the card displays `c`. */
  lemma DisplaysAdoptedCount(counts: map<string, int>, id: string, c: int, outcome: ApiOutcome<seq<CountEntry>>)
    ensures DisplayedCount(ReviewList.UpdateLikeCount(counts, id, Some(c), outcome).0, id) == c
  {
  }

  /** The extra reaction icon beside the count: shown for any reaction but a plain like. */
  predicate ShowsReactionIcon(react: Option<Reaction>) {
    react.Some? && Alt(react.value) != "Thích"
  }

  /** The reaction icon appears exactly when the caller reacted with
      something other than `Like`. */
  lemma ReactionIconIffNotLike(react: Option<Reaction>)
    ensures ShowsReactionIcon(react) <==> react.Some? && react.value != Like
  {
    if react.Some? && react.value != Like {
      AltRoundTrip(react.value);
      AltRoundTrip(Like);
    }
  }

  /** The label on the reaction button: the current reaction's `alt`, or "Thích". */
  function ButtonLabel(react: Option<Reaction>): (l: string)
    ensures FromAlt(l).Some?
    ensures react.Some? ==> FromAlt(l) == react
    ensures react.None? ==> FromAlt(l) == Some(Like)
  {
    var shown := if react.Some? then react.value else Like;
    AltRoundTrip(shown);
    Alt(shown)
  }

  /** A click on the button itself reacts with the first reaction of the picker. */
  function ButtonClick(): (r: Reaction)
    ensures r == Picker[0] && Alt(r) == ButtonLabel(None)
  {
    Like
  }

  const StarCount := 5

  /** Which of the five stars are highlighted: star `i` (from 0) iff `i < rating`. */
  function Stars(rating: int): (s: seq<bool>)
    ensures |s| == StarCount
  {
    seq(StarCount, i requires 0 <= i < StarCount => i < rating)
  }

  function CountTrue(s: seq<bool>): nat {
    if |s| == 0 then 0 else (if s[0] then 1 else 0) + CountTrue(s[1..])
  }

  function Clamp(x: int, lo: int, hi: int): int
    requires lo <= hi
  {
    if x < lo then lo else if x > hi then hi else x
  }

  /** Among the first `k` stars, the highlighted ones are exactly the first
      `rating` (clamped to 0..k). */
  lemma {:induction false} HighlightedPrefix(rating: int, k: nat)
    requires k <= StarCount
    ensures CountTrue(Stars(rating)[..k]) == Clamp(rating, 0, k)
    decreases k
  {
    var s := Stars(rating);
    if k > 0 {
      HighlightedPrefix(rating, k - 1);
      CountTrueSnoc(s[..k - 1], s[k - 1]);
      assert s[..k] == s[..k - 1] + [s[k - 1]];
    }
  }

  lemma {:induction false} CountTrueSnoc(s: seq<bool>, b: bool)
    ensures CountTrue(s + [b]) == CountTrue(s) + (if b then 1 else 0)
    decreases |s|
  {
    if |s| == 0 {
      assert s + [b] == [b];
      assert [b][1..] == [];
    } else {
      assert (s + [b])[1..] == s[1..] + [b];
      CountTrueSnoc(s[1..], b);
    }
  }

  /** The number of highlighted stars is the rating clamped to 0..5. */
  lemma HighlightedStars(rating: int)
    ensures CountTrue(Stars(rating)) == Clamp(rating, 0, StarCount)
  {
    HighlightedPrefix(rating, StarCount);
    assert Stars(rating)[..StarCount] == Stars(rating);
  }

  /** `toUpperCase` on one character, for ASCII letters. */
  function UpperAscii(c: char): (u: char)
    ensures 'a' <= c <= 'z' ==> 'A' <= u <= 'Z'
    ensures !('a' <= c <= 'z') ==> u == c
  {
    if 'a' <= c <= 'z' then (c as int - 32) as char else c
  }

  /** The category badge: nothing for an empty category, otherwise the
      category with only its first character upper-cased. */
  function CategoryLabel(category: string): (r: Option<string>)
    ensures category == "" <==> r.None?
    ensures r.Some? ==> |r.value| == |category| && r.value[0] == UpperAscii(category[0])
                        && r.value[1..] == category[1..]
  {
    if category == "" then None else Some([UpperAscii(category[0])] + category[1..])
  }

  /** Labelling is idempotent, and the fixed category names are shown as they are. */
  lemma CategoryLabelStable(category: string)
    requires category != ""
    ensures CategoryLabel(CategoryLabel(category).value) == CategoryLabel(category)
    ensures category in ["Food", "Clothes", "Accessories", "Electronics", "Books", "Others"] ==>
              CategoryLabel(category) == Some(category)
  {
    var l := CategoryLabel(category).value;
    assert l[1..] == category[1..];
    if category in ["Food", "Clothes", "Accessories", "Electronics", "Books", "Others"] {
      assert 'A' <= category[0] <= 'Z';
      assert l == [l[0]] + l[1..];
      assert category == [category[0]] + category[1..];
    }
  }
}
