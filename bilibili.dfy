/**
 * src/commands/downloader/bilibili.js: the `isBilibili` classifier, and the
 * folder key and page of `downloadBilibili`.
 */
module Bilibili {
  import opened Js
  import opened Text
  import Video
  import VideoPage

  /** The two URL prefixes `isBilibili` accepts, matched against the lower-cased URL. */
  predicate HasBilibiliPrefix(u: string) {
    StartsWith(u, "https://www.bilibili.com/video/") || StartsWith(u, "https://bilibili.com/video/")
  }

  /** The URL `isBilibili` tests: one trailing `/` removed, then lower-cased. */
  function Normalized(url: string): string {
    ToLower(DropTrailingSlash(url))
  }

  /**
   * `isBilibili(url)`: `false` when no prefix matches, else what
   * `getBilibiliId` makes of the lower-cased URL, which may throw.
   */
  function IsBilibili(url: string): (r: Result<Value>)
    ensures r.Throw? ==> HasBilibiliPrefix(Normalized(url)) && Includes(Normalized(url), "/list/")
    ensures r.Ok? ==> r.value == Bool(false) || r.value.Str?
  {
    var u := Normalized(url);
    if !HasBilibiliPrefix(u) then Ok(Bool(false))
    else
      match Video.GetBilibiliId(u)
      case Throw(e) => Throw(e)
      case Ok(id) => Ok(Str(id))
  }

  /** A URL is Bilibili exactly when a prefix matches and the lower-cased URL has an id. */
  lemma IsBilibiliTruthy(url: string)
    ensures IsBilibili(url).Ok? && Truthy(IsBilibili(url).value) <==>
      HasBilibiliPrefix(Normalized(url)) && Video.GetBilibiliId(Normalized(url)).Ok?
      && Video.GetBilibiliId(Normalized(url)).value != ""
    ensures IsBilibili(url).Throw? <==>
      HasBilibiliPrefix(Normalized(url)) && Video.GetBilibiliId(Normalized(url)).Throw?
  {
  }

  /**
   * A `https://bilibili.com/video/` URL passes only through the `/list/`
   * branch, or because a `www.bilibili.com/video/` URL occurs later inside
   * it: the id pattern requires `www.`, so it cannot match at the start.
   */
  lemma NonWwwPasses(url: string)
    requires StartsWith(Normalized(url), "https://bilibili.com/video/")
    requires IsBilibili(url).Ok? && Truthy(IsBilibili(url).value)
    ensures Includes(Normalized(url), "/list/") || exists k :: 0 < k && Video.BilibiliMatchAt(Normalized(url), k)
  {
    var u := Normalized(url);
    if !Includes(u, "/list/") {
      Video.BilibiliVideoBranch(u);
      NoMatchAtStart(u);
    }
  }

  /** The id pattern cannot match at the start of a URL without `www.`. */
  lemma NoMatchAtStart(u: string)
    requires StartsWith(u, "https://bilibili.com/video/")
    ensures !Video.BilibiliMatchAt(u, 0)
  {
    PrefixesDiffer(u, "https://bilibili.com/video/", "https://www.bilibili.com/video/", 8);
    PrefixesDiffer(u, "https://bilibili.com/video/", "http://www.bilibili.com/video/", 4);
    assert OccursAt(u, "https://www.bilibili.com/video/", 0) ==> StartsWith(u, "https://www.bilibili.com/video/");
    assert OccursAt(u, "http://www.bilibili.com/video/", 0) ==> StartsWith(u, "http://www.bilibili.com/video/");
  }

  /** `bilibili%23<id>`: the folder key, id from the original-case URL; it throws when the id does. */
  function PageKey(url: string): (r: Result<string>)
    ensures r.Ok? <==> Video.GetBilibiliId(url).Ok?
  {
    match Video.GetBilibiliId(url)
    case Throw(e) => Throw(e)
    case Ok(id) => Ok("bilibili%23" + id)
  }

  /**
   * Decoding the `%23` in the page key gives the key `commandVideo` stored
   * the video under, when `commandVideo` picked Bilibili.
   */
  lemma PageKeyDecodes(url: string)
    requires Video.CommandVideo(url).Ok? && Video.CommandVideo(url).value.site == Video.Bilibili
    ensures PageKey(url).Ok?
    ensures ReplaceFirst(PageKey(url).value, "%23", "#") == Video.CommandVideo(url).value.key
  {
    Video.CommandVideoDecision(url);
    var id := Video.CommandVideo(url).value.id;
    assert Video.GetBilibiliId(url) == Ok(id);
    assert Video.CommandVideo(url).value.key == "bilibili#" + id;
    ReplaceFirstAfter("bilibili", "%23", "#", id);
    assert "bilibili" + "%23" == "bilibili%23";
    assert "bilibili" + "#" == "bilibili#";
  }

  /** The page `downloadBilibili` renders from the metadata `commandVideo` returned. */
  function DownloadBilibiliPage(url: string, file: string, subs: seq<string>, tags: seq<string>)
    : (r: Result<VideoPage.View>)
    ensures r.Ok? ==> PageKey(url).Ok? && r.value.src == "/files/videos/" + PageKey(url).value + "/" + file
  {
    match PageKey(url)
    case Throw(e) => Throw(e)
    case Ok(key) => VideoPage.PageView(key, file, subs, tags)
  }
}
