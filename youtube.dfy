/**
 * src/commands/downloader/youtube.js: the `isYoutube` classifier, and the
 * folder key and page of `downloadYoutube`.
 */
module Youtube {
  import opened Js
  import opened Text
  import Video
  import VideoPage

  /** The four URL prefixes `isYoutube` accepts, matched against the lower-cased URL. */
  predicate HasYoutubePrefix(u: string) {
    StartsWith(u, "https://www.youtube.com/watch?v=")
    || StartsWith(u, "https://youtube.com/watch?v=")
    || StartsWith(u, "https://youtu.be/")
    || StartsWith(u, "https://www.youtu.be/")
  }

  /** The URL `isYoutube` tests: one trailing `/` removed, then lower-cased. */
  function Normalized(url: string): string {
    ToLower(DropTrailingSlash(url))
  }

  /**
   * `isYoutube(url)`: `false` when no prefix matches, else the id of the
   * lower-cased URL (a string, falsy when empty).
   */
  function IsYoutube(url: string): (r: Value)
    ensures r == Bool(false) || r == Str(Video.GetYoutubeId(Normalized(url)))
  {
    And(Bool(HasYoutubePrefix(Normalized(url))), Str(Video.GetYoutubeId(Normalized(url))))
  }

  /** A URL is YouTube exactly when a prefix matches and the lower-cased URL has an id. */
  lemma IsYoutubeTruthy(url: string)
    ensures Truthy(IsYoutube(url)) <==>
      HasYoutubePrefix(Normalized(url)) && Video.GetYoutubeId(Normalized(url)) != ""
    ensures !HasYoutubePrefix(Normalized(url)) ==> IsYoutube(url) == Bool(false)
  {
  }

  /** The id `isYoutube` returns comes from the lower-cased URL, so it holds no upper-case letter. */
  lemma IsYoutubeIdLowerCase(url: string)
    requires Truthy(IsYoutube(url))
    ensures forall i :: 0 <= i < |IsYoutube(url).s| ==> !('A' <= IsYoutube(url).s[i] <= 'Z')
  {
    var u := Normalized(url);
    var id := Video.GetYoutubeId(u);
    assert IsYoutube(url) == Str(id);
    IdCharsFromUrl(u);
    forall i | 0 <= i < |id|
      ensures !('A' <= id[i] <= 'Z')
    {
      var k :| 0 <= k < |u| && u[k] == id[i];
      assert u[k] == LowerChar(DropTrailingSlash(url)[k]);
    }
  }

  /** Every character of the id is a character of the URL. */
  lemma IdCharsFromUrl(u: string)
    ensures forall i :: 0 <= i < |Video.GetYoutubeId(u)| ==> Video.GetYoutubeId(u)[i] in u
  {
    match Video.LastYoutubeMarker(u, Video.LineEnd(u, 0))
    case None =>
    case Some((p, n)) =>
      IdRunChars(u, p + n);
  }

  lemma IdRunChars(u: string, from: nat)
    ensures forall i :: 0 <= i < |Video.IdRun(u, from)| ==> Video.IdRun(u, from)[i] in u
  {
    var id := Video.IdRun(u, from);
    forall i | 0 <= i < |id|
      ensures id[i] in u
    {
      assert id[i] == u[from + i];
    }
  }

  /** `http:` URLs and the `/shorts/` and `/embed/` paths never carry an accepted prefix. */
  lemma RejectedPrefixes(u: string)
    ensures StartsWith(u, "http://") ==> !HasYoutubePrefix(u)
    ensures StartsWith(u, "https://www.youtube.com/shorts/") ==> !HasYoutubePrefix(u)
    ensures StartsWith(u, "https://www.youtube.com/embed/") ==> !HasYoutubePrefix(u)
  {
    if StartsWith(u, "http://") {
      PrefixesDiffer(u, "http://", "https://www.youtube.com/watch?v=", 4);
      PrefixesDiffer(u, "http://", "https://youtube.com/watch?v=", 4);
      PrefixesDiffer(u, "http://", "https://youtu.be/", 4);
      PrefixesDiffer(u, "http://", "https://www.youtu.be/", 4);
    }
    if StartsWith(u, "https://www.youtube.com/shorts/") {
      PrefixesDiffer(u, "https://www.youtube.com/shorts/", "https://www.youtube.com/watch?v=", 24);
      PrefixesDiffer(u, "https://www.youtube.com/shorts/", "https://youtube.com/watch?v=", 8);
      PrefixesDiffer(u, "https://www.youtube.com/shorts/", "https://youtu.be/", 8);
      PrefixesDiffer(u, "https://www.youtube.com/shorts/", "https://www.youtu.be/", 17);
    }
    if StartsWith(u, "https://www.youtube.com/embed/") {
      PrefixesDiffer(u, "https://www.youtube.com/embed/", "https://www.youtube.com/watch?v=", 24);
      PrefixesDiffer(u, "https://www.youtube.com/embed/", "https://youtube.com/watch?v=", 8);
      PrefixesDiffer(u, "https://www.youtube.com/embed/", "https://youtu.be/", 8);
      PrefixesDiffer(u, "https://www.youtube.com/embed/", "https://www.youtu.be/", 17);
    }
  }

  /** So `isYoutube` refuses them whatever follows. */
  lemma IsYoutubeRejects(url: string)
    ensures StartsWith(Normalized(url), "http://") ==> !Truthy(IsYoutube(url))
    ensures StartsWith(Normalized(url), "https://www.youtube.com/shorts/") ==> !Truthy(IsYoutube(url))
    ensures StartsWith(Normalized(url), "https://www.youtube.com/embed/") ==> !Truthy(IsYoutube(url))
  {
    RejectedPrefixes(Normalized(url));
  }

  /** `yt%23<id>`: the folder key with `#` percent-encoded, id from the original-case URL. */
  function PageKey(url: string): string {
    "yt%23" + Video.GetYoutubeId(url)
  }

  /**
   * Decoding the `%23` in the page key gives the key `commandVideo` stored
   * the video under, when `commandVideo` picked YouTube.
   */
  lemma PageKeyDecodes(url: string)
    requires Video.CommandVideo(url).Ok? && Video.CommandVideo(url).value.site == Video.YouTube
    ensures ReplaceFirst(PageKey(url), "%23", "#") == Video.CommandVideo(url).value.key
  {
    var id := Video.GetYoutubeId(url);
    Video.CommandVideoDecision(url);
    assert Video.CommandVideo(url).value.key == "yt#" + id;
    ReplaceFirstAfter("yt", "%23", "#", id);
    assert "yt" + "%23" == "yt%23";
    assert "yt" + "#" == "yt#";
  }

  /** The page `downloadYoutube` renders from the metadata `commandVideo` returned. */
  function DownloadYoutubePage(url: string, file: string, subs: seq<string>, tags: seq<string>)
    : (r: Result<VideoPage.View>)
    ensures r.Ok? ==> r.value.src == "/files/videos/yt%23" + Video.GetYoutubeId(url) + "/" + file
  {
    VideoPage.PageView(PageKey(url), file, subs, tags)
  }
}
