/**
 * src/commands/video.js: the YouTube and Bilibili id extractors and the
 * branch `commandVideo` takes. The extractors' regular expressions are
 * written out by hand, following the leftmost, greedy/lazy backtracking
 * order of JavaScript's engine.
 */
module Video {
  import opened Js
  import opened Text
  import Url

  // ---------------------------------------------------------------------
  // getYoutubeId:
  //   /^.*(?:(?:youtu\.be\/|v\/|vi\/|u\/\w\/|embed\/|shorts\/)|
  //        (?:(?:watch)?\?v(?:i)?=|\&v(?:i)?=))([^#\&\?]*).*/
  // The leading `.*` is greedy and cannot cross a line terminator, so the
  // engine tries the marker positions from the end of the first line back
  // to 0 and takes the first (that is, the last) position where a marker
  // matches. At any position at most one alternative matches. The group
  // is the maximal run of characters other than `#`, `&` and `?` after it.
  // ---------------------------------------------------------------------

  /** The index of the first line terminator at or after `from`, or |s|. */
  function LineEnd(s: string, from: nat): (r: nat)
    requires from <= |s|
    decreases |s| - from
    ensures from <= r <= |s|
    ensures NoLineTerminator(s[from..r])
    ensures r < |s| ==> IsLineTerminator(s[r])
  {
    if from == |s| || IsLineTerminator(s[from]) then from
    else
      var r := LineEnd(s, from + 1);
      assert s[from..r] == [s[from]] + s[from + 1..r];
      r
  }

  /** The length of the marker alternative that matches at `p`, if any. */
  function YoutubeMarkerAt(s: string, p: nat): (r: Option<nat>)
    ensures r.Some? ==> p + r.value <= |s|
    ensures r.Some? ==> r.value >= 2 && (s[p + r.value - 1] == '/' || s[p + r.value - 1] == '=')
  {
    if OccursAt(s, "youtu.be/", p) then Some(9)
    else if OccursAt(s, "v/", p) then Some(2)
    else if OccursAt(s, "vi/", p) then Some(3)
    else if OccursAt(s, "u/", p) && p + 3 < |s| && IsWordChar(s[p + 2]) && s[p + 3] == '/' then Some(4)
    else if OccursAt(s, "embed/", p) then Some(6)
    else if OccursAt(s, "shorts/", p) then Some(7)
    else if OccursAt(s, "watch?vi=", p) then Some(9)
    else if OccursAt(s, "watch?v=", p) then Some(8)
    else if OccursAt(s, "?vi=", p) then Some(4)
    else if OccursAt(s, "?v=", p) then Some(3)
    else if OccursAt(s, "&vi=", p) then Some(4)
    else if OccursAt(s, "&v=", p) then Some(3)
    else None
  }

  /** The greatest position at or below `p` where a marker matches, with its length. */
  function LastYoutubeMarker(s: string, p: nat): (r: Option<(nat, nat)>)
    decreases p
    ensures r.Some? ==> r.value.0 <= p && YoutubeMarkerAt(s, r.value.0) == Some(r.value.1)
    ensures r.Some? ==> forall q :: r.value.0 < q <= p ==> YoutubeMarkerAt(s, q).None?
    ensures r.None? ==> forall q :: 0 <= q <= p ==> YoutubeMarkerAt(s, q).None?
  {
    match YoutubeMarkerAt(s, p)
    case Some(n) => Some((p, n))
    case None => if p == 0 then None else LastYoutubeMarker(s, p - 1)
  }

  predicate IsYoutubeIdChar(c: char) {
    c != '#' && c != '&' && c != '?'
  }

  /** The captured group: the maximal run of id characters from `from` on. */
  function IdRun(url: string, from: nat): (r: string)
    ensures forall i :: 0 <= i < |r| ==> IsYoutubeIdChar(r[i])
  {
    if from <= |url| then url[from..RunEnd(url, from, IsYoutubeIdChar)] else ""
  }

  /** `getYoutubeId(url)`: the id after the last marker of the first line, or `''`. */
  function GetYoutubeId(url: string): (r: string)
    ensures forall i :: 0 <= i < |r| ==> IsYoutubeIdChar(r[i])
  {
    match LastYoutubeMarker(url, LineEnd(url, 0))
    case None => ""
    case Some((p, n)) => IdRun(url, p + n)
  }

  /** No marker matches anywhere on the first line of `url`. */
  predicate NoYoutubeMarker(url: string) {
    forall q :: 0 <= q <= LineEnd(url, 0) ==> YoutubeMarkerAt(url, q).None?
  }

  /** The marker at `p` is the last one on the first line of `url`. */
  predicate IsLastYoutubeMarker(url: string, p: nat, n: nat) {
    p <= LineEnd(url, 0) && YoutubeMarkerAt(url, p) == Some(n)
    && forall q :: p < q <= LineEnd(url, 0) ==> YoutubeMarkerAt(url, q).None?
  }

  /**
   * What `getYoutubeId` promises: `''` when no marker occurs on the first
   * line; otherwise the maximal run of characters other than `#`, `&`, `?`
   * right after the marker that no later marker on that line follows.
   */
  lemma GetYoutubeIdSpec(url: string)
    ensures NoYoutubeMarker(url) ==> GetYoutubeId(url) == ""
    ensures forall p: nat, n: nat :: IsLastYoutubeMarker(url, p, n) ==> GetYoutubeId(url) == IdRun(url, p + n)
  {
    var e := LineEnd(url, 0);
    var m := LastYoutubeMarker(url, e);
    forall p: nat, n: nat | IsLastYoutubeMarker(url, p, n)
      ensures GetYoutubeId(url) == IdRun(url, p + n)
    {
      assert m.Some?;
      assert m.value.0 == p;
    }
  }

  /** A YouTube id never contains `#`. */
  lemma YoutubeIdHasNoHash(url: string)
    ensures '#' !in GetYoutubeId(url)
  {
  }

  // ---------------------------------------------------------------------
  // getBilibiliId
  // ---------------------------------------------------------------------

  /** Every marker ends in `/` or `=`, so none starts where only id characters follow. */
  lemma NoMarkerBeforeIdChars(s: string, q: nat)
    requires forall j :: q <= j < |s| ==> IsIdChar(s[j])
    ensures YoutubeMarkerAt(s, q).None?
  {
  }

  /** `[A-Za-z0-9-_]` */
  predicate IsIdChar(c: char) {
    'a' <= c <= 'z' || 'A' <= c <= 'Z' || IsDigit(c) || c == '-' || c == '_'
  }

  /** The length of `https?:\/\/www\.bilibili\.com\/video\/` at `i`, if it matches there. */
  function BilibiliPrefixAt(s: string, i: nat): Option<nat> {
    if OccursAt(s, "https://www.bilibili.com/video/", i) then Some(31)
    else if OccursAt(s, "http://www.bilibili.com/video/", i) then Some(30)
    else None
  }

  /** The regex matches at `i` when the prefix is followed by at least one id character. */
  predicate BilibiliMatchAt(s: string, i: nat) {
    BilibiliPrefixAt(s, i).Some? && i + BilibiliPrefixAt(s, i).value < |s|
    && IsIdChar(s[i + BilibiliPrefixAt(s, i).value])
  }

  /** The leftmost match at or after `i`: where its group starts and ends. */
  function FirstBilibiliMatch(s: string, i: nat): (r: Option<(nat, nat)>)
    decreases |s| - i
    ensures r.Some? ==> exists k :: (i <= k && BilibiliMatchAt(s, k)
      && r.value.0 == k + BilibiliPrefixAt(s, k).value
      && r.value.1 == RunEnd(s, r.value.0, IsIdChar)
      && (forall j :: i <= j < k ==> !BilibiliMatchAt(s, j)))
    ensures r.None? ==> forall j :: i <= j ==> !BilibiliMatchAt(s, j)
  {
    if i >= |s| then None
    else if BilibiliMatchAt(s, i) then
      var start := i + BilibiliPrefixAt(s, i).value;
      Some((start, RunEnd(s, start, IsIdChar)))
    else FirstBilibiliMatch(s, i + 1)
  }

  /** `getBilibiliId(url)`: the `/list/` branch, or the first match of the video regex. */
  function GetBilibiliId(url: string): (r: Result<string>)
  {
    if Includes(url, "/list/") then
      var parts := Split(url, "&bvid=");
      if |parts| < 2 then Throw(TypeErrorMessage)   // `undefined.split('&')`
      else Ok(Split(parts[1], "&")[0])
    else
      match FirstBilibiliMatch(url, 0)
      case None => Ok("")
      case Some((a, b)) => Ok(url[a..b])
  }

  /** The first piece of a split at a separator starting with `c`, split again at `c`. */
  lemma FirstPieceBeforeChar(t: string, sep: string, c: char)
    requires sep != [] && sep[0] == c
    ensures Split(Split(t, sep)[0], [c])[0] == Split(t, [c])[0]
  {
    SplitFirst(t, sep);
    match IndexOf(t, sep, 0)
    case None =>
    case Some(x) =>
      assert t[x..x + |sep|][0] == c;
      assert t == t[..x] + t[x..];
      FirstPieceOfPrefix(t[..x], t[x..], c);
  }

  /**
   * For a URL containing `/list/`, `getBilibiliId` throws when `&bvid=` is
   * absent, and otherwise returns the text after the first `&bvid=` up to
   * the next `&`.
   */
  lemma {:induction false} BilibiliListBranch(url: string)
    requires Includes(url, "/list/")
    ensures IndexOf(url, "&bvid=", 0).None? ==> GetBilibiliId(url) == Throw(TypeErrorMessage)
    ensures IndexOf(url, "&bvid=", 0).Some? ==>
      var rest := url[IndexOf(url, "&bvid=", 0).value + 6..];
      GetBilibiliId(url) == Ok(Split(rest, "&")[0])
  {
    SplitFirst(url, "&bvid=");
    match IndexOf(url, "&bvid=", 0)
    case None =>
    case Some(i) =>
      var rest := url[i + 6..];
      assert Split(url, "&bvid=")[1] == Split(rest, "&bvid=")[0];
      FirstPieceBeforeChar(rest, "&bvid=", '&');
  }

  /** The text up to the first `&` holds no `&`: a list-branch id never contains `&`. */
  lemma BilibiliListIdHasNoAmpersand(url: string)
    requires Includes(url, "/list/") && GetBilibiliId(url).Ok?
    ensures !Includes(GetBilibiliId(url).value, "&")
  {
    var parts := Split(url, "&bvid=");
    SplitPartsExcludeSep(parts[1], "&", 0);
  }

  /**
   * Without `/list/`, `getBilibiliId` is the maximal run of id characters
   * after the leftmost `http(s)://www.bilibili.com/video/` that is followed
   * by at least one, or `''` when there is none.
   */
  lemma BilibiliVideoBranch(url: string)
    requires !Includes(url, "/list/")
    ensures GetBilibiliId(url).Ok?
    ensures GetBilibiliId(url).value == "" <==> forall j :: 0 <= j ==> !BilibiliMatchAt(url, j)
    ensures forall i :: 0 <= i < |GetBilibiliId(url).value| ==> IsIdChar(GetBilibiliId(url).value[i])
  {
    match FirstBilibiliMatch(url, 0)
    case None =>
    case Some((a, b)) =>
      var k :| 0 <= k && BilibiliMatchAt(url, k) && a == k + BilibiliPrefixAt(url, k).value
        && b == RunEnd(url, a, IsIdChar);
      assert b > a;
  }

  // ---------------------------------------------------------------------
  // commandVideo
  // ---------------------------------------------------------------------

  datatype VideoSite = YouTube | Bilibili

  /**
   * What `commandVideo` does with a job's URL: which downloader, which id,
   * and the key under which both the folder `videos/<key>` and the
   * metadata row are stored.
   */
  datatype VideoJob = VideoJob(site: VideoSite, id: string, key: string)

  const NoVideoId := "Could not find youtube or bilibili ID"

  function KeyPrefix(site: VideoSite): string {
    match site
    case YouTube => "yt#"
    case Bilibili => "bilibili#"
  }

  /** `commandVideo(data)`: validate, then try YouTube, then Bilibili. */
  function CommandVideo(url: string): (r: Result<VideoJob>)
    ensures r.Ok? ==> r.value.id != "" && r.value.key == KeyPrefix(r.value.site) + r.value.id
  {
    match Url.ValidateUrl(url)
    case Throw(m) => Throw(m)
    case Ok(_) =>
      var y := GetYoutubeId(url);
      if y != "" then Ok(VideoJob(YouTube, y, "yt#" + y))
      else
        match GetBilibiliId(url)
        case Throw(m) => Throw(m)
        case Ok(b) =>
          if b != "" then Ok(VideoJob(Bilibili, b, "bilibili#" + b))
          else Throw(NoVideoId)
  }

  /**
   * The order of `commandVideo`'s decisions: the URL gate first, YouTube
   * before Bilibili, and `Could not find youtube or bilibili ID` exactly
   * when both extractors come back empty.
   */
  lemma CommandVideoDecision(url: string)
    ensures Url.ValidateUrl(url).Throw? ==> CommandVideo(url) == Throw(Url.NotAllowed)
    ensures Url.ValidateUrl(url).Ok? && GetYoutubeId(url) != "" ==>
      CommandVideo(url) == Ok(VideoJob(YouTube, GetYoutubeId(url), "yt#" + GetYoutubeId(url)))
    ensures CommandVideo(url).Ok? && CommandVideo(url).value.site == Bilibili ==>
      GetYoutubeId(url) == "" && GetBilibiliId(url) == Ok(CommandVideo(url).value.id)
    ensures CommandVideo(url) == Throw(NoVideoId) <==>
      Url.ValidateUrl(url).Ok? && GetYoutubeId(url) == "" && GetBilibiliId(url) == Ok("")
  {
  }

  /** A YouTube key splits at `#` into exactly the type `yt` and the id. */
  lemma {:induction false} YoutubeKeySplits(url: string)
    requires CommandVideo(url).Ok? && CommandVideo(url).value.site == YouTube
    ensures Split(CommandVideo(url).value.key, "#") == ["yt", CommandVideo(url).value.id]
  {
    var id := GetYoutubeId(url);
    assert CommandVideo(url).value == VideoJob(YouTube, id, "yt#" + id);
    YoutubeIdHasNoHash(url);
    SplitAtOnlyChar("yt", '#', id);
    assert "yt" + ['#'] + id == "yt#" + id;
  }
}
