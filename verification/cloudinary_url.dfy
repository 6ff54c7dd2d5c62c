/** Extraction of a Cloudinary public id from an image URL, as done by the
    regular expression `/\/v\d+\/(.+?)(?:\.\w+)?$/` with JavaScript's
    semantics: the leftmost start position at which the whole pattern
    matches wins; at that position the capture `(.+?)` is the SHORTEST
    non-empty text after the version segment such that what follows it is
    empty or a single `.<word characters>` extension reaching the end of the
    URL. `.` does not match a line terminator, `\w` is `[A-Za-z0-9_]`, and
    `$` is the end of the input. */
module CloudinaryUrl {
  import opened Base

  predicate IsDigit(c: char) {
    '0' <= c <= '9'
  }

  predicate IsWordChar(c: char) {
    ('a' <= c <= 'z') || ('A' <= c <= 'Z') || IsDigit(c) || c == '_'
  }

  predicate IsLineTerminator(c: char) {
    c == '\n' || c == '\r' || c == '\U{2028}' || c == '\U{2029}'
  }

  /** `\/v\d+\/` matches exactly `url[i..j]`. */
  predicate IsVersionSegment(url: string, i: nat, j: nat) {
    && i + 4 <= j <= |url|
    && url[i] == '/' && url[i + 1] == 'v' && url[j - 1] == '/'
    && forall k :: i + 2 <= k < j - 1 ==> IsDigit(url[k])
  }

  /** `(?:\.\w+)?$` matches exactly the text `t`. */
  predicate IsOptionalExtension(t: string) {
    t == [] || (|t| >= 2 && t[0] == '.' && forall k :: 1 <= k < |t| ==> IsWordChar(t[k]))
  }

  /** `(.+?)` may take the `n` characters at `url[j..]` and the rest of the
      pattern then matches the remainder of the URL. */
  predicate IsCapture(url: string, j: nat, n: nat) {
    && 1 <= n && j + n <= |url|
    && (forall k :: j <= k < j + n ==> !IsLineTerminator(url[k]))
    && IsOptionalExtension(url[j + n..])
  }

  /** The whole pattern matches starting at `i`, with the version segment
      ending at `j` and a capture of length `n`. */
  predicate PatternMatch(url: string, i: nat, j: nat, n: nat) {
    IsVersionSegment(url, i, j) && IsCapture(url, j, n)
  }

  /** The match the regular-expression engine reports: leftmost start, and
      the lazy (shortest) capture at that start. */
  ghost predicate LeftmostLazyMatch(url: string, i: nat, j: nat, n: nat) {
    && PatternMatch(url, i, j, n)
    && (forall m :: 1 <= m < n ==> !IsCapture(url, j, m))
    && (forall i': nat, j': nat, n': nat :: i' < i ==> !PatternMatch(url, i', j', n'))
  }

  /** End of the run of digits that starts at `url[k]`. */
  function DigitRunEnd(url: string, k: nat): (e: nat)
    requires k <= |url|
    ensures k <= e <= |url|
    ensures forall m :: k <= m < e ==> IsDigit(url[m])
    ensures e < |url| ==> !IsDigit(url[e])
    decreases |url| - k
  {
    if k < |url| && IsDigit(url[k]) then DigitRunEnd(url, k + 1) else k
  }

  /** The version segment starting at `i`, if any; there is at most one,
      because `\d+` cannot match the closing `/`. */
  function SegmentAt(url: string, i: nat): (r: Option<nat>)
    ensures r.Some? ==> IsVersionSegment(url, i, r.value)
    ensures forall j: nat :: IsVersionSegment(url, i, j) ==> r == Some(j)
  {
    if i + 2 <= |url| && url[i] == '/' && url[i + 1] == 'v' then
      var e := DigitRunEnd(url, i + 2);
      SegmentEndsAtRunEnd(url, i, e);
      if i + 2 < e < |url| && url[e] == '/' then Some(e + 1) else None
    else
      None
  }

  /** A version segment starting at `i` can only close right after the run
      of digits that follows `/v`. */
  lemma SegmentEndsAtRunEnd(url: string, i: nat, e: nat)
    requires i + 2 <= |url| && e == DigitRunEnd(url, i + 2)
    ensures forall j: nat :: IsVersionSegment(url, i, j) ==> j == e + 1
  {
    forall j: nat | IsVersionSegment(url, i, j)
      ensures j == e + 1
    {
      assert !IsDigit(url[j - 1]);
    }
  }

  /** The lazy capture after a version segment ending at `j`: tries lengths
      `n`, `n + 1`, ... and stops at the first that lets the rest match, or
      at a line terminator, which `.` cannot cross. */
  function LazyCapture(url: string, j: nat, n: nat): (r: Option<nat>)
    requires 1 <= n && j + n <= |url| + 1
    requires forall k :: j <= k < j + n - 1 ==> !IsLineTerminator(url[k])
    requires forall m :: 1 <= m < n ==> !IsCapture(url, j, m)
    ensures r.Some? ==> n <= r.value && IsCapture(url, j, r.value)
    ensures r.Some? ==> forall m :: 1 <= m < r.value ==> !IsCapture(url, j, m)
    ensures r.None? ==> forall m: nat :: !IsCapture(url, j, m)
    decreases |url| + 1 - (j + n)
  {
    if j + n > |url| then None
    else if IsLineTerminator(url[j + n - 1]) then None
    else if IsOptionalExtension(url[j + n..]) then Some(n)
    else LazyCapture(url, j, n + 1)
  }

  /** The leftmost match at or after `from`, as (start, capture start,
      capture length). */
  function MatchFrom(url: string, from: nat): (r: Option<(nat, nat, nat)>)
    requires forall i: nat, j: nat, n: nat :: i < from ==> !PatternMatch(url, i, j, n)
    ensures r.Some? ==> from <= r.value.0 && LeftmostLazyMatch(url, r.value.0, r.value.1, r.value.2)
    ensures r.None? ==> forall i: nat, j: nat, n: nat :: !PatternMatch(url, i, j, n)
    decreases |url| - from
  {
    if from >= |url| then None
    else
      match SegmentAt(url, from)
      case None => MatchFrom(url, from + 1)
      case Some(j) =>
        match LazyCapture(url, j, 1)
        case Some(n) => Some((from, j, n))
        case None => MatchFrom(url, from + 1)
  }

  /** `getPublicIdFromUrl`: the capture of the leftmost match, or null when
      the pattern matches nowhere. */
  function GetPublicIdFromUrl(url: string): (r: Option<string>)
    ensures r.Some? ==> exists i: nat, j: nat, n: nat :: LeftmostLazyMatch(url, i, j, n) && r.value == url[j..j + n]
    ensures r.None? <==> forall i: nat, j: nat, n: nat :: !PatternMatch(url, i, j, n)
    ensures r.Some? ==> |r.value| >= 1
  {
    match MatchFrom(url, 0)
    case Some((i, j, n)) => Some(url[j..j + n])
    case None => None
  }

  /** The leftmost lazy match is unique, so the extracted id is determined by
      the pattern alone. */
  lemma LeftmostLazyMatchUnique(url: string, i: nat, j: nat, n: nat, i': nat, j': nat, n': nat)
    requires LeftmostLazyMatch(url, i, j, n) && LeftmostLazyMatch(url, i', j', n')
    ensures i == i' && j == j' && n == n'
  {
    assert SegmentAt(url, i) == Some(j);
    assert SegmentAt(url, i') == Some(j');
  }

  /** Whatever `GetPublicIdFromUrl` returns is exactly the capture of the
      engine's match. */
  lemma PublicIdIsTheCapture(url: string, i: nat, j: nat, n: nat)
    requires LeftmostLazyMatch(url, i, j, n)
    ensures GetPublicIdFromUrl(url) == Some(url[j..j + n])
  {
    var r := GetPublicIdFromUrl(url);
    assert PatternMatch(url, i, j, n);
    var i': nat, j': nat, n': nat :| LeftmostLazyMatch(url, i', j', n') && r.value == url[j'..j' + n'];
    LeftmostLazyMatchUnique(url, i, j, n, i', j', n');
  }

  /** Shifting every position by a prefix's length preserves a version segment. */
  lemma ShiftSegment(p: string, q: string, i: nat, j: nat)
    ensures IsVersionSegment(p + q, |p| + i, |p| + j) <==> IsVersionSegment(q, i, j)
  {
    var u := p + q;
    assert forall k :: 0 <= k < |q| ==> u[|p| + k] == q[k];
  }

  /** Shifting by a prefix's length preserves a capture. */
  lemma ShiftCapture(p: string, q: string, j: nat, n: nat)
    ensures IsCapture(p + q, |p| + j, n) <==> IsCapture(q, j, n)
  {
    var u := p + q;
    assert forall k :: 0 <= k < |q| ==> u[|p| + k] == q[k];
    if j + n <= |q| {
      assert u[|p| + j + n..] == q[j + n..];
    }
  }

  /** No match can start inside a prefix that holds no `v` after its first
      character (a match starts with `/v`). */
  lemma NoMatchInPrefix(p: string, q: string, i: nat, j: nat, n: nat)
    requires forall k :: 0 < k <= |p| && k < |p| + |q| ==> (p + q)[k] != 'v'
    ensures PatternMatch(p + q, i, j, n) ==> |p| <= i
  {
  }

  /** Every match in `p + q` lies wholly in `q`, shifted by `|p|`. */
  lemma MatchesLieInSuffix(p: string, q: string)
    requires forall k :: 0 < k <= |p| && k < |p| + |q| ==> (p + q)[k] != 'v'
    ensures forall i: nat, j: nat, n: nat :: PatternMatch(p + q, i, j, n) ==>
              |p| <= i && |p| <= j && PatternMatch(q, i - |p|, j - |p|, n)
  {
    forall i: nat, j: nat, n: nat | PatternMatch(p + q, i, j, n)
      ensures |p| <= i && |p| <= j && PatternMatch(q, i - |p|, j - |p|, n)
    {
      NoMatchInPrefix(p, q, i, j, n);
      ShiftSegment(p, q, i - |p|, j - |p|);
      ShiftCapture(p, q, j - |p|, n);
    }
  }

  /** The engine's match in `q` is, shifted, the engine's match in `p + q`. */
  lemma LeftmostLazyMatchShifts(p: string, q: string, i: nat, j: nat, n: nat)
    requires forall k :: 0 < k <= |p| && k < |p| + |q| ==> (p + q)[k] != 'v'
    requires LeftmostLazyMatch(q, i, j, n)
    ensures LeftmostLazyMatch(p + q, |p| + i, |p| + j, n)
  {
    MatchesLieInSuffix(p, q);
    ShiftSegment(p, q, i, j);
    ShiftCapture(p, q, j, n);
    var u, jj := p + q, |p| + j;
    forall m: nat | 1 <= m < n
      ensures !IsCapture(u, jj, m)
    {
      ShiftCapture(p, q, j, m);
    }
  }

  /** A prefix in which no `/v` can start does not change the extracted id:
      the match is found in the rest of the URL. */
  lemma PublicIdSkipsPrefix(p: string, q: string)
    requires forall k :: 0 < k <= |p| && k < |p| + |q| ==> (p + q)[k] != 'v'
    ensures GetPublicIdFromUrl(p + q) == GetPublicIdFromUrl(q)
  {
    var r := GetPublicIdFromUrl(q);
    if r.Some? {
      var i: nat, j: nat, n: nat :| LeftmostLazyMatch(q, i, j, n) && r.value == q[j..j + n];
      ShiftedIdIsTheSame(p, q, i, j, n);
    } else {
      MatchesLieInSuffix(p, q);
    }
  }

  lemma ShiftedIdIsTheSame(p: string, q: string, i: nat, j: nat, n: nat)
    requires forall k :: 0 < k <= |p| && k < |p| + |q| ==> (p + q)[k] != 'v'
    requires LeftmostLazyMatch(q, i, j, n)
    ensures GetPublicIdFromUrl(p + q) == Some(q[j..j + n])
  {
    var u := p + q;
    LeftmostLazyMatchShifts(p, q, i, j, n);
    PublicIdIsTheCapture(u, |p| + i, |p| + j, n);
    assert u[|p| + j..|p| + j + n] == q[j..j + n];
  }

  /** `/v123/abc.jpg` yields `abc`: the extension is dropped. */
  lemma PublicIdOfVersionedPath()
    ensures GetPublicIdFromUrl("/v123/abc.jpg") == Some("abc")
  {
    var u := "/v123/abc.jpg";
    assert DigitRunEnd(u, 5) == 5;
    assert DigitRunEnd(u, 2) == 5;
    assert SegmentAt(u, 0) == Some(6);
    assert !IsOptionalExtension(u[7..]);
    assert !IsOptionalExtension(u[8..]);
    assert IsOptionalExtension(u[9..]);
    assert LazyCapture(u, 6, 1) == Some(3);
    assert MatchFrom(u, 0) == Some((0, 6, 3));
    assert u[6..9] == "abc";
  }

  /** A full delivery URL whose host and folders hold no `v` yields the id
      after its version segment. */
  lemma PublicIdOfCloudinaryUrl()
    ensures GetPublicIdFromUrl("https://res.cloudinary.com/demo/image/upload/v123/abc.jpg") == Some("abc")
  {
    var p := "https://res.cloudinary.com/demo/image/upload";
    var q := "/v123/abc.jpg";
    assert p + q == "https://res.cloudinary.com/demo/image/upload/v123/abc.jpg";
    PublicIdSkipsPrefix(p, q);
    PublicIdOfVersionedPath();
  }

  /** Only the last extension is dropped: `a.b.jpg` yields `a.b`. */
  lemma PublicIdKeepsInnerDots()
    ensures GetPublicIdFromUrl("/v1/a.b.jpg") == Some("a.b")
  {
    var u := "/v1/a.b.jpg";
    assert DigitRunEnd(u, 3) == 3;
    assert DigitRunEnd(u, 2) == 3;
    assert SegmentAt(u, 0) == Some(4);
    assert u[5..][2] == '.' && !IsWordChar(u[5..][2]);
    assert u[6..][0] == 'b';
    assert IsOptionalExtension(u[7..]);
    assert LazyCapture(u, 4, 1) == Some(3);
    assert MatchFrom(u, 0) == Some((0, 4, 3));
    assert u[4..7] == "a.b";
  }

  /** Stripping never empties the id: `.jpg` is kept whole. */
  lemma PublicIdNeverEmpty()
    ensures GetPublicIdFromUrl("/v1/.jpg") == Some(".jpg")
  {
    var u := "/v1/.jpg";
    assert DigitRunEnd(u, 3) == 3;
    assert DigitRunEnd(u, 2) == 3;
    assert SegmentAt(u, 0) == Some(4);
    assert u[5..][0] == 'j' && u[6..][0] == 'p' && u[7..][0] == 'g';
    assert IsOptionalExtension(u[8..]);
    assert LazyCapture(u, 4, 1) == Some(4);
    assert MatchFrom(u, 0) == Some((0, 4, 4));
    assert u[4..8] == ".jpg";
  }

  /** Without an extension the whole remainder, folders included, is the id. */
  lemma PublicIdKeepsFolders()
    ensures GetPublicIdFromUrl("/v7/shops/a1") == Some("shops/a1")
  {
    var u := "/v7/shops/a1";
    assert DigitRunEnd(u, 3) == 3;
    assert DigitRunEnd(u, 2) == 3;
    assert SegmentAt(u, 0) == Some(4);
    assert forall k :: 5 <= k < 12 ==> !IsOptionalExtension(u[k..]);
    assert IsOptionalExtension(u[12..]);
    assert LazyCapture(u, 4, 1) == Some(8);
    assert MatchFrom(u, 0) == Some((0, 4, 8));
    assert u[4..12] == "shops/a1";
  }

  /** `x/v123/` has no id: its only version segment ends the URL. */
  lemma NoPublicIdAfterTrailingSegment()
    ensures GetPublicIdFromUrl("x/v123/") == None
  {
  }

  /** When every version segment in a URL ends the URL, nothing is left to
      capture and there is no id. (An earlier segment followed by text, as in
      `/v1/a/v123/`, does give one: the capture runs on to the end.) */
  lemma NoPublicIdWhenSegmentsEndTheUrl(url: string)
    requires forall i: nat, j: nat :: IsVersionSegment(url, i, j) ==> j == |url|
    ensures GetPublicIdFromUrl(url) == None
  {
  }

  /** The witness for the remark above. */
  lemma EarlierSegmentCapturesTrailingOne()
    ensures GetPublicIdFromUrl("/v1/a/v123/") == Some("a/v123/")
  {
    var u := "/v1/a/v123/";
    assert DigitRunEnd(u, 3) == 3;
    assert DigitRunEnd(u, 2) == 3;
    assert SegmentAt(u, 0) == Some(4);
    assert u[5..][0] == '/' && u[6..][0] == 'v' && u[7..][0] == '1';
    assert u[8..][0] == '2' && u[9..][0] == '3' && u[10..][0] == '/';
    assert IsOptionalExtension(u[11..]);
    assert LazyCapture(u, 4, 1) == Some(7);
    assert MatchFrom(u, 0) == Some((0, 4, 7));
    assert u[4..11] == "a/v123/";
  }
}
