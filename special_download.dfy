/**
 * src/commands/special_download.js: `commandMedia(data)` checks the job's
 * URL and hands it to the first downloader whose classifier claims it, or
 * saves the page as HTML. `isImgur` lives in a file this model does not
 * include and is a parameter.
 *
 * `isNewgrounds` is `async` and is not awaited here, so its promise is
 * truthy for every URL: `CommandMedia` models that, `CommandMediaAwaited`
 * the evidently intended chain.
 */
module SpecialDownload {
  import opened Js
  import opened Text
  import Url
  import Newgrounds
  import SoundCloud
  import Twitter
  import Reddit

  datatype Site = Imgur | NewgroundsSite | SoundCloudSite | TwitterSite | RedditPostSite | RedditCommentSite

  /** The downloader call the job makes. */
  datatype MediaJob =
    | Fetch(site: Site, url: string, dest: string, id: string)
    | SaveHtml(url: string, path: string)

  /** `path.join(fileDir, 'site_downloads')`. */
  function DownloadDir(fileDir: string): string {
    PathJoin(fileDir, "site_downloads")
  }

  /**
   * `commandMedia` as written: the URL gate, then imgur, the un-awaited
   * `isNewgrounds`, SoundCloud, Twitter, reddit post, reddit comment, and
   * the HTML fallback.
   */
  function CommandMedia(url: string, id: string, fileDir: string, isImgur: string -> bool): (r: Result<MediaJob>)
    ensures Url.ValidateUrl(url).Throw? ==> r == Throw(Url.NotAllowed)
    ensures Url.ValidateUrl(url).Ok? ==>
      r.Ok? && r.value.Fetch? && r.value.url == url && r.value.dest == DownloadDir(fileDir) && r.value.id == id
    ensures r.Ok? ==> (r.value.site == Imgur <==> isImgur(url))
    ensures r.Ok? ==> r.value.site == Imgur || r.value.site == NewgroundsSite
  {
    match Url.ValidateUrl(url)
    case Throw(e) => Throw(e)
    case Ok(_) =>
      var dest := DownloadDir(fileDir);
      if isImgur(url) then Ok(Fetch(Imgur, url, dest, id))
      else if Truthy(Newgrounds.IsNewgrounds(url)) then Ok(Fetch(NewgroundsSite, url, dest, id))
      else if SoundCloud.IsSoundCloud(url) then Ok(Fetch(SoundCloudSite, url, dest, id))
      else if Twitter.IsTwitter(url) then Ok(Fetch(TwitterSite, url, dest, id))
      else if Reddit.IsRedditPost(url) then Ok(Fetch(RedditPostSite, url, dest, id))
      else if Reddit.IsRedditComment(url) then Ok(Fetch(RedditCommentSite, url, dest, id))
      else Ok(SaveHtml(url, PathJoin(dest, id + ".html")))
  }

  /** Whether the classifier of `site` claims `url`, with the Newgrounds verdict awaited. */
  predicate Claims(site: Site, url: string, isImgur: string -> bool) {
    match site
    case Imgur => isImgur(url)
    case NewgroundsSite => Newgrounds.IsNewgroundsUrl(url)
    case SoundCloudSite => SoundCloud.IsSoundCloud(url)
    case TwitterSite => Twitter.IsTwitter(url)
    case RedditPostSite => Reddit.IsRedditPost(url)
    case RedditCommentSite => Reddit.IsRedditComment(url)
  }

  /** The order the chain tries the sites in. */
  function Rank(site: Site): nat {
    match site
    case Imgur => 0
    case NewgroundsSite => 1
    case SoundCloudSite => 2
    case TwitterSite => 3
    case RedditPostSite => 4
    case RedditCommentSite => 5
  }

  /** `commandMedia` with `await isNewgrounds(data.data)`. */
  function CommandMediaAwaited(url: string, id: string, fileDir: string, isImgur: string -> bool): (r: Result<MediaJob>)
    ensures Url.ValidateUrl(url).Throw? ==> r == Throw(Url.NotAllowed)
    ensures Url.ValidateUrl(url).Ok? ==> r.Ok?
    ensures r.Ok? && r.value.Fetch? ==>
      && r.value.url == url && r.value.dest == DownloadDir(fileDir) && r.value.id == id
      && Claims(r.value.site, url, isImgur)
      && forall s :: Rank(s) < Rank(r.value.site) ==> !Claims(s, url, isImgur)
    ensures r.Ok? ==> (r.value.SaveHtml? <==> forall s :: !Claims(s, url, isImgur))
    ensures r.Ok? && r.value.SaveHtml? ==> r.value == SaveHtml(url, PathJoin(DownloadDir(fileDir), id + ".html"))
  {
    match Url.ValidateUrl(url)
    case Throw(e) => Throw(e)
    case Ok(_) =>
      var dest := DownloadDir(fileDir);
      if isImgur(url) then Ok(Fetch(Imgur, url, dest, id))
      else if Newgrounds.IsNewgroundsUrl(url) then Ok(Fetch(NewgroundsSite, url, dest, id))
      else if SoundCloud.IsSoundCloud(url) then Ok(Fetch(SoundCloudSite, url, dest, id))
      else if Twitter.IsTwitter(url) then Ok(Fetch(TwitterSite, url, dest, id))
      else if Reddit.IsRedditPost(url) then Ok(Fetch(RedditPostSite, url, dest, id))
      else if Reddit.IsRedditComment(url) then Ok(Fetch(RedditCommentSite, url, dest, id))
      else Ok(SaveHtml(url, PathJoin(dest, id + ".html")))
  }

  /**
   * On every admitted URL that imgur does not claim and that is not a
   * Newgrounds listen URL, the two readings part: as written the job goes
   * to the Newgrounds downloader, awaited it goes wherever the chain says.
   */
  lemma PlainPageMediaDiffers(url: string, id: string, fileDir: string, isImgur: string -> bool)
    requires Url.ValidateUrl(url).Ok? && !isImgur(url) && !Newgrounds.IsNewgroundsUrl(url)
    ensures CommandMedia(url, id, fileDir, isImgur) == Ok(Fetch(NewgroundsSite, url, DownloadDir(fileDir), id))
    ensures CommandMediaAwaited(url, id, fileDir, isImgur).value != Fetch(NewgroundsSite, url, DownloadDir(fileDir), id)
  {
  }

  /** A web page that no downloader claims. */
  const PlainPage := "https://e.io/a"

  /** `https://e.io/a` passes the gate and is too short for every classifier's prefix. */
  lemma PlainPageMediaUrl()
    ensures Url.ValidateUrl(PlainPage).Ok?
    ensures forall isImgur: string -> bool :: !isImgur(PlainPage) ==> forall s :: !Claims(s, PlainPage, isImgur)
  {
    var u := PlainPage;
    assert u[..8] == "https://";
    assert u[|u| - 1] == 'a';
    assert DropTrailingSlash(u) == u;
  }

  /** The counterexample: a plain web page is handed to the Newgrounds downloader instead of being saved as HTML. */
  lemma PlainPagePageGoesToNewgrounds(id: string, fileDir: string, isImgur: string -> bool)
    requires !isImgur(PlainPage)
    ensures CommandMedia(PlainPage, id, fileDir, isImgur) == Ok(Fetch(NewgroundsSite, PlainPage, DownloadDir(fileDir), id))
    ensures CommandMediaAwaited(PlainPage, id, fileDir, isImgur) == Ok(SaveHtml(PlainPage, PathJoin(DownloadDir(fileDir), id + ".html")))
  {
    PlainPageMediaUrl();
    PlainPageMediaDiffers(PlainPage, id, fileDir, isImgur);
  }
}
