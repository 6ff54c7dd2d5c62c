/** The review list view: timestamp display, endpoint selection and the full
    replace of the list on load, and the id -> like-count map (batch fold,
    single-key update). */
module ReviewList {
  import opened Base
  import opened Reviews
  import opened Effects

  const NoTimeText := "Không có thời gian"
  const InvalidTimeText := "Thời gian không hợp lệ"

  /** A timestamp with its wire shape removed. A plain empty string is falsy
      and so counts as missing; a `{ $date }` wrapper is truthy whatever it
      holds. */
  datatype DateText = Missing | Unsupported | Text(s: string)

  function Normalize(ts: Option<Timestamp>): (d: DateText)
    ensures d.Missing? <==> ts.None? || ts == Some(PlainDate(""))
    ensures d.Unsupported? <==> ts == Some(OtherShape)
    ensures d.Text? ==> ts == Some(PlainDate(d.s)) || ts == Some(WrappedDate(d.s))
  {
    match ts
    case None => Missing
    case Some(PlainDate(s)) => if s == "" then Missing else Text(s)
    case Some(WrappedDate(s)) => Text(s)
    case Some(OtherShape) => Unsupported
  }

  /** A date string through the host's date parser and the fixed-locale
      renderer, both given as oracles; an unparseable string is reported as
      invalid. */
  function RenderDate(s: string, parse: string -> Option<int>, render: int -> string): (r: string)
    ensures parse(s).None? ==> r == InvalidTimeText
    ensures parse(s).Some? ==> r == render(parse(s).value)
  {
    match parse(s)
    case None => InvalidTimeText
    case Some(instant) => render(instant)
  }

  /** `formatTimestamp`: total, never throws. */
  function FormatTimestamp(ts: Option<Timestamp>, parse: string -> Option<int>, render: int -> string): (r: string)
    ensures ts.None? || ts == Some(PlainDate("")) ==> r == NoTimeText
    ensures ts == Some(OtherShape) ==> r == InvalidTimeText
    ensures Normalize(ts).Text? ==> r == RenderDate(Normalize(ts).s, parse, render)
  {
    if ts.None? || ts == Some(PlainDate("")) then NoTimeText
    else
      match ts.value
      case WrappedDate(s) => RenderDate(s, parse, render)
      case PlainDate(s) => RenderDate(s, parse, render)
      case OtherShape => InvalidTimeText
  }

  /** A `{ $date: s }` wrapper and the plain string `s` render alike, for
      every non-empty `s`; an empty wrapped string still goes to the parser
      while an empty plain string counts as missing. */
  lemma WrappedAndPlainAgree(s: string, parse: string -> Option<int>, render: int -> string)
    requires s != ""
    ensures FormatTimestamp(Some(WrappedDate(s)), parse, render) == FormatTimestamp(Some(PlainDate(s)), parse, render)
  {
  }

  /** The result is always one of the two fixed messages or a rendering of
      the parsed instant. */
  lemma FormatTimestampOutcomes(ts: Option<Timestamp>, parse: string -> Option<int>, render: int -> string)
    ensures var r := FormatTimestamp(ts, parse, render);
      || r == NoTimeText
      || r == InvalidTimeText
      || (Normalize(ts).Text? && parse(Normalize(ts).s).Some? && r == render(parse(Normalize(ts).s).value))
  {
  }

  const AllCategory := "All"
  const FeedPrefix := "/allItems?category="
  const ProfilePrefix := "/profile?category="

  /** The category query value: the `All` filter is sent as the empty string. */
  function CategoryQuery(selected: string): (q: string)
    ensures selected == AllCategory ==> q == ""
    ensures selected != AllCategory ==> q == selected
  {
    if selected == AllCategory then "" else selected
  }

  /** The list endpoint: the public feed on `/`, the caller's own reviews on
      any other path; the category is appended without encoding. */
  function ListEndpoint(pathname: string, selected: string): (e: string)
    ensures pathname == "/" ==> e == FeedPrefix + CategoryQuery(selected)
    ensures pathname != "/" ==> e == ProfilePrefix + CategoryQuery(selected)
  {
    (if pathname == "/" then FeedPrefix else ProfilePrefix) + CategoryQuery(selected)
  }

  /** Reads an endpoint back: which list it names and its category value. */
  function ParseListEndpoint(e: string): Option<(bool, string)>
  {
    if |e| >= |FeedPrefix| && e[..|FeedPrefix|] == FeedPrefix then Some((true, e[|FeedPrefix|..]))
    else if |e| >= |ProfilePrefix| && e[..|ProfilePrefix|] == ProfilePrefix then Some((false, e[|ProfilePrefix|..]))
    else None
  }

  /** The endpoint determines which list was asked for and with which
      category value. */
  lemma ListEndpointRoundTrip(pathname: string, selected: string)
    ensures ParseListEndpoint(ListEndpoint(pathname, selected)) == Some((pathname == "/", CategoryQuery(selected)))
  {
    var q := CategoryQuery(selected);
    var e := ListEndpoint(pathname, selected);
    if pathname == "/" {
      assert e[..|FeedPrefix|] == FeedPrefix;
      assert e[|FeedPrefix|..] == q;
    } else {
      assert e[1] == 'p' != FeedPrefix[1];
      assert e[..|ProfilePrefix|] == ProfilePrefix;
      assert e[|ProfilePrefix|..] == q;
    }
  }

  /** Two selections reach the same endpoint exactly when they name the same
      list and the same category value; in particular `All` and the empty
      category coincide on both lists. */
  lemma ListEndpointInjective(p1: string, c1: string, p2: string, c2: string)
    ensures ListEndpoint(p1, c1) == ListEndpoint(p2, c2)
            <==> (p1 == "/") == (p2 == "/") && CategoryQuery(c1) == CategoryQuery(c2)
  {
    ListEndpointRoundTrip(p1, c1);
    ListEndpointRoundTrip(p2, c2);
  }

  /** The list view's data: the working set of reviews and the like counts. */
  datatype ListState = ListState(reviews: seq<Review>, likeCounts: map<string, int>)

  /** `loadData`: one `GET`; the response replaces the whole list, and any
      error empties it. */
  function LoadData(st: ListState, pathname: string, selected: string,
                    outcome: ApiOutcome<seq<Review>>): (r: (ListState, seq<Effect>))
    ensures r.1 == [ApiGetList(ListEndpoint(pathname, selected))]
    ensures outcome.Ok? ==> r.0.reviews == outcome.data
    ensures !outcome.Ok? ==> r.0.reviews == []
    ensures r.0.likeCounts == st.likeCounts
  {
    var reviews := match outcome
      case Ok(data) => data
      case HttpErr(_) => []
      case Thrown => [];
    (st.(reviews := reviews), [ApiGetList(ListEndpoint(pathname, selected))])
  }

  /** The `_id.$oid` of each review, in list order. */
  function ReviewIds(reviews: seq<Review>): (ids: seq<string>)
    ensures |ids| == |reviews|
    ensures forall i :: 0 <= i < |reviews| ==> ids[i] == reviews[i].id
  {
    seq(|reviews|, i requires 0 <= i < |reviews| => reviews[i].id)
  }

  function IdSet(entries: seq<CountEntry>): set<string> {
    set e | e in entries :: e.id
  }

  /** No later entry carries the same id as `entries[j]`. */
  predicate IsLastFor(entries: seq<CountEntry>, j: int)
    requires 0 <= j < |entries|
  {
    forall k :: j < k < |entries| ==> entries[k].id != entries[j].id
  }

  /** The `reduce` of the batch response into a map, left to right: each id
      ends up with the count of its LAST entry; ids absent from the response
      keep the accumulator's value. */
  function FoldCounts(acc: map<string, int>, entries: seq<CountEntry>): (m: map<string, int>)
    ensures m.Keys == acc.Keys + IdSet(entries)
    ensures forall id :: id in acc && id !in IdSet(entries) ==> m[id] == acc[id]
    ensures forall j :: 0 <= j < |entries| && IsLastFor(entries, j) ==> m[entries[j].id] == entries[j].count
    decreases |entries|
  {
    if |entries| == 0 then acc
    else
      var rest := entries[1..];
      assert IdSet(entries) == {entries[0].id} + IdSet(rest) by {
        assert forall e :: e in entries <==> e == entries[0] || e in rest;
      }
      assert forall j :: 1 <= j < |entries| && IsLastFor(entries, j) ==> IsLastFor(rest, j - 1) && rest[j - 1] == entries[j];
      assert IsLastFor(entries, 0) ==> entries[0].id !in IdSet(rest);
      FoldCounts(acc[entries[0].id := entries[0].count], rest)
  }

  /** `fetchLikeCounts`: nothing is asked for an empty list; otherwise one
      batch request for every listed id, whose folded response REPLACES the
      map (ids missing from the response disappear); an error keeps it. */
  function FetchLikeCounts(st: ListState, outcome: ApiOutcome<seq<CountEntry>>): (r: (ListState, seq<Effect>))
    ensures r.0.reviews == st.reviews
    ensures |st.reviews| == 0 ==> r == (st, [])
    ensures |st.reviews| > 0 ==> r.1 == [ApiBatchCount(ReviewIds(st.reviews))]
    ensures |st.reviews| > 0 && outcome.Ok? ==>
              && r.0.likeCounts.Keys == IdSet(outcome.data)
              && forall j :: 0 <= j < |outcome.data| && IsLastFor(outcome.data, j) ==>
                   r.0.likeCounts[outcome.data[j].id] == outcome.data[j].count
    ensures !outcome.Ok? ==> r.0 == st
  {
    if |st.reviews| == 0 then (st, [])
    else
      var t := [ApiBatchCount(ReviewIds(st.reviews))];
      match outcome
      case Ok(entries) => (st.(likeCounts := FoldCounts(map[], entries)), t)
      case HttpErr(_) => (st, t)
      case Thrown => (st, t)
  }

  /** `updateLikeCount`: with a count, that count is stored for `id` without
      any request; without one, `[id]` is re-counted and the first entry's
      count (0 when there is none) is stored; an error keeps the map. No
      other key ever changes. */
  function UpdateLikeCount(counts: map<string, int>, id: string, count: Option<int>,
                           outcome: ApiOutcome<seq<CountEntry>>): (r: (map<string, int>, seq<Effect>))
    ensures count.Some? ==> r.1 == [] && id in r.0 && r.0[id] == count.value
    ensures count.None? ==> r.1 == [ApiBatchCount([id])]
    ensures count.None? && outcome.Ok? ==>
              id in r.0 && r.0[id] == (if |outcome.data| > 0 then outcome.data[0].count else 0)
    ensures count.None? && !outcome.Ok? ==> r.0 == counts
    ensures forall k :: k != id ==> (k in r.0 <==> k in counts)
    ensures forall k :: k != id && k in counts ==> r.0[k] == counts[k]
  {
    match count
    case Some(c) => (counts[id := c], [])
    case None =>
      var t := [ApiBatchCount([id])];
      match outcome
      case Ok(entries) =>
        var newCount := if |entries| > 0 then entries[0].count else 0;
        (counts[id := newCount], t)
      case HttpErr(_) => (counts, t)
      case Thrown => (counts, t)
  }

  /** A later entry for the same id overrides an earlier one. */
  lemma LaterDuplicateWins(entries: seq<CountEntry>, a: nat, b: nat)
    requires a < b < |entries| && entries[a].id == entries[b].id
    requires IsLastFor(entries, b)
    ensures FoldCounts(map[], entries)[entries[a].id] == entries[b].count
  {
  }
}
