/**
 * src/commands/downloader/reddit.js: the `isRedditPost` and
 * `isRedditComment` classifiers, the thing id the API is asked for, and what
 * `downloadRedditPost` decides from the post's JSON: which media it embeds,
 * the gallery it saves, and the badges it shows.
 */
module Reddit {
  import opened Js
  import opened Text
  import opened FileNames

  const RedditPrefix := "https://www.reddit.com/r/"

  /**
   * The post regex read position by position: `k` is where `/comments/`
   * begins and `j` is the slash after the second lazy run. Each of the three
   * `.+?` runs is non-empty and may itself contain `/`.
   */
  predicate PostSplitAt(url: string, k: nat, j: nat) {
    |RedditPrefix| < k && OccursAt(url, "/comments/", k) && k + 10 < j && j + 2 < |url| && url[j] == '/'
  }

  /** What `^https:\/\/www\.reddit\.com\/r\/.+?\/comments\/.+?\/.+?\/$` accepts. */
  ghost predicate PostRegex(url: string) {
    NoLineTerminator(url) && StartsWith(url, RedditPrefix) && EndsWith(url, "/")
    && exists k: nat, j: nat :: PostSplitAt(url, k, j)
  }

  /**
   * `isRedditPost(url)`, decided from the first `/comments/` after the
   * subreddit's first character: the URL is not trimmed, and `.` refuses
   * line breaks anywhere in it.
   */
  predicate IsRedditPost(url: string) {
    NoLineTerminator(url) && StartsWith(url, RedditPrefix) && EndsWith(url, "/")
    && match IndexOf(url, "/comments/", |RedditPrefix| + 1)
       case None => false
       case Some(k) => k + 11 <= |url| - 2 && '/' in url[k + 11..|url| - 2]
  }

  /** Trying the first `/comments/` loses nothing: the decision is exactly the regex. */
  lemma IsRedditPostIsRegex(url: string)
    ensures IsRedditPost(url) <==> PostRegex(url)
  {
    var first := IndexOf(url, "/comments/", |RedditPrefix| + 1);
    if IsRedditPost(url) {
      var k := first.value;
      var tail := url[k + 11..|url| - 2];
      var m :| 0 <= m < |tail| && tail[m] == '/';
      assert PostSplitAt(url, k, k + 11 + m);
    }
    if PostRegex(url) {
      var k0: nat, j0: nat :| PostSplitAt(url, k0, j0);
      var k := first.value;
      assert k <= k0;
      assert url[k + 11..|url| - 2][j0 - k - 11] == '/';
    }
  }

  /** Every URL of the shape the regex describes passes. */
  lemma PostUrlPasses(sub: string, post: string, slug: string)
    requires sub != "" && post != "" && slug != ""
    requires NoLineTerminator(RedditPrefix + sub + "/comments/" + post + "/" + slug + "/")
    ensures IsRedditPost(RedditPrefix + sub + "/comments/" + post + "/" + slug + "/")
  {
    var url := RedditPrefix + sub + "/comments/" + post + "/" + slug + "/";
    var k := |RedditPrefix| + |sub|;
    assert url[k..k + 10] == "/comments/";
    assert url[k + 10 + |post|] == '/';
    assert url[|url| - 1..] == "/";
    assert url[..|RedditPrefix|] == RedditPrefix;
    assert PostSplitAt(url, k, k + 10 + |post|);
    IsRedditPostIsRegex(url);
  }

  /**
   * The comment regex read position by position: `/comments/` at `k`,
   * `/comment/` at `m`, and the slash before the last run at `j`.
   */
  predicate CommentSplitAt(url: string, k: nat, m: nat, j: nat) {
    |RedditPrefix| < k && OccursAt(url, "/comments/", k) && k + 10 < m
    && OccursAt(url, "/comment/", m) && m + 9 < j && j + 1 < |url| && url[j] == '/'
  }

  /** What `^https:\/\/www\.reddit\.com\/r\/.+?\/comments\/.+?\/comment\/.+?\/.+?$` accepts. */
  ghost predicate CommentRegex(url: string) {
    NoLineTerminator(url) && StartsWith(url, RedditPrefix)
    && exists k: nat, m: nat, j: nat :: CommentSplitAt(url, k, m, j)
  }

  /** `isRedditComment(url)`, decided from the first `/comments/` and the first `/comment/` after it. */
  predicate IsRedditComment(url: string) {
    NoLineTerminator(url) && StartsWith(url, RedditPrefix)
    && match IndexOf(url, "/comments/", |RedditPrefix| + 1)
       case None => false
       case Some(k) =>
         match IndexOf(url, "/comment/", k + 11)
         case None => false
         case Some(m) => m + 10 <= |url| - 1 && '/' in url[m + 10..|url| - 1]
  }

  /** Trying the first occurrences loses nothing: the decision is exactly the regex. */
  lemma IsRedditCommentIsRegex(url: string)
    ensures IsRedditComment(url) <==> CommentRegex(url)
  {
    var first := IndexOf(url, "/comments/", |RedditPrefix| + 1);
    if IsRedditComment(url) {
      var k := first.value;
      var m := IndexOf(url, "/comment/", k + 11).value;
      var tail := url[m + 10..|url| - 1];
      var p :| 0 <= p < |tail| && tail[p] == '/';
      assert CommentSplitAt(url, k, m, m + 10 + p);
    }
    if CommentRegex(url) {
      var k0: nat, m0: nat, j0: nat :| CommentSplitAt(url, k0, m0, j0);
      var k := first.value;
      assert k <= k0;
      var m := IndexOf(url, "/comment/", k + 11).value;
      assert m <= m0;
      assert url[m + 10..|url| - 1][j0 - m - 10] == '/';
    }
  }

  /**
   * A comment URL that ends in `/` is also a post URL: the slash opening
   * `/comment/` closes the post pattern's second run. A dispatcher that asks
   * `isRedditPost` first sends such comment links to the post downloader.
   */
  lemma CommentUrlIsPostUrl(url: string)
    requires IsRedditComment(url) && EndsWith(url, "/")
    ensures IsRedditPost(url)
  {
    var k := IndexOf(url, "/comments/", |RedditPrefix| + 1).value;
    var m := IndexOf(url, "/comment/", k + 11).value;
    assert url[m] == url[m..m + 9][0] == '/';
    assert url[k + 11..|url| - 2][m - k - 11] == '/';
  }

  /** The `t3_` (post) or `t1_` (comment) thing id: the second-to-last `/`-segment of the trimmed URL. */
  function ThingId(kind: string, url: string): string {
    kind + match SecondLast(Split(DropTrailingSlash(url), "/"))
           case None => "undefined"
           case Some(segment) => segment
  }

  /** The API request both downloaders make. */
  function ApiUrl(kind: string, url: string): string {
    "https://api.reddit.com/api/info/?id=" + ThingId(kind, url) + "&raw_json=1"
  }

  /** For a post link, the id asked for is the post's own id segment. */
  lemma PostThingId(sub: string, post: string, slug: string)
    requires '/' !in post && '/' !in slug
    ensures ThingId("t3_", RedditPrefix + sub + "/comments/" + post + "/" + slug + "/") == "t3_" + post
  {
    var head := RedditPrefix + sub + "/comments";
    var url := RedditPrefix + sub + "/comments/" + post + "/" + slug + "/";
    assert DropTrailingSlash(url) == head + ['/'] + post + ['/'] + slug;
    SecondLastPartBetween(head, '/', post, slug);
  }

  /** For a comment link, with or without the trailing `/`, it is the comment's id segment. */
  lemma CommentThingId(sub: string, post: string, comment: string, slug: string)
    requires '/' !in comment && '/' !in slug && slug != ""
    ensures ThingId("t1_", RedditPrefix + sub + "/comments/" + post + "/comment/" + comment + "/" + slug)
      == "t1_" + comment
    ensures ThingId("t1_", RedditPrefix + sub + "/comments/" + post + "/comment/" + comment + "/" + slug + "/")
      == "t1_" + comment
  {
    var head := RedditPrefix + sub + "/comments/" + post + "/comment";
    var url := RedditPrefix + sub + "/comments/" + post + "/comment/" + comment + "/" + slug;
    assert url == head + ['/'] + comment + ['/'] + slug;
    assert url[|url| - 1] == slug[|slug| - 1];
    assert DropTrailingSlash(url) == url;
    assert DropTrailingSlash(url + "/") == url by {
      assert (url + "/")[..|url|] == url;
    }
    SecondLastPartBetween(head, '/', comment, slug);
  }

  /** `data.author || '[deleted]'`, with a missing author read as `''`. */
  function AuthorName(author: string): (r: string)
    ensures r != ""
    ensures author != "" ==> r == author
  {
    if author != "" then author else "[deleted]"
  }

  // Media

  /** `data.media.reddit_video`. */
  datatype RedditVideo = RedditVideo(fallbackUrl: string, scrubberUrl: string, width: int, height: int)

  /** One entry of `data.gallery_data.items`; a missing caption is `''`. */
  datatype GalleryItem = GalleryItem(mediaId: string, caption: string)

  /** One entry of `data.media_metadata`: its MIME type `m` and its source URL `s.u`. */
  datatype MediaMeta = MediaMeta(mime: string, sourceUrl: string)

  /**
   * The fields of the post's JSON that `downloadRedditPost` reads, each flag
   * as its truthiness and each missing string as `''`.
   */
  datatype Post = Post(
    isVideo: bool, video: RedditVideo,
    gallery: Option<seq<GalleryItem>>, metadata: map<string, MediaMeta>,
    oembedHtml: Option<string>, url: string,
    edited: bool, pinned: bool, over18: bool, locked: bool,
    author: string, selftextHtml: string, spoiler: bool)

  /** The `media` the page embeds, one constructor per branch. */
  datatype Media =
    | VideoMedia(video: Download, ext: string, width: int, height: int)
    | GalleryMedia(html: string, images: seq<Download>)
    | EmbedMedia(html: string)
    | ImageMedia(image: Download)
    | NoMedia

  /** The markup of one gallery image: the tag, then the caption paragraph when there is a caption. */
  function GalleryEntryHtml(filename: string, caption: string): (r: string)
    ensures caption == "" ==> r == ImgTag(filename)
    ensures caption != "" ==> StartsWith(r, ImgTag(filename)) && EndsWith(r, caption + "</p>")
  {
    ImgTag(filename) + if caption != "" then "<p>" + caption + "</p>" else ""
  }

  /** The file of the `i`-th gallery image: `<id>-img<i>.<last '/'-segment of its MIME type>`. */
  function GalleryName(id: string, i: nat, meta: MediaMeta): string {
    IndexedName(id + "-img", i, LastPart(meta.mime, "/"))
  }

  /**
   * The gallery loop over the first `|items|` items: the markup so far and
   * the images to save, or the `TypeError` of an item whose media id has no
   * metadata.
   */
  function Gallery(id: string, items: seq<GalleryItem>, metadata: map<string, MediaMeta>, unescape: string -> string)
    : (r: Result<(string, seq<Download>)>)
    decreases |items|
    ensures r.Throw? ==> r.message == TypeErrorMessage
    ensures r.Ok? ==> |r.value.1| == |items|
  {
    if |items| == 0 then Ok(("", []))
    else
      var n := |items| - 1;
      match Gallery(id, items[..n], metadata, unescape)
      case Throw(e) => Throw(e)
      case Ok((html, images)) =>
        match GalleryEntry(id, n, items[n], metadata, unescape)
        case Throw(e) => Throw(e)
        case Ok((markup, image)) => Ok((html + markup, images + [image]))
  }

  /** One pass of the loop body: the image's markup and the file it is saved to. */
  function GalleryEntry(id: string, i: nat, item: GalleryItem, metadata: map<string, MediaMeta>,
                        unescape: string -> string): (r: Result<(string, Download)>)
    ensures r.Ok? <==> item.mediaId in metadata
    ensures r.Throw? ==> r.message == TypeErrorMessage
    ensures r.Ok? ==> r.value.1 == Download(unescape(metadata[item.mediaId].sourceUrl),
                                            GalleryName(id, i, metadata[item.mediaId]))
  {
    if item.mediaId !in metadata then Throw(TypeErrorMessage)
    else
      var meta := metadata[item.mediaId];
      var name := GalleryName(id, i, meta);
      Ok((GalleryEntryHtml(name, item.caption), Download(unescape(meta.sourceUrl), name)))
  }

  /** Appending the image tag, then the caption paragraph when there is a caption, appends the entry's markup. */
  lemma GalleryHtmlAppend(before: string, filename: string, caption: string)
    ensures caption == "" ==> before + ImgTag(filename) == before + GalleryEntryHtml(filename, caption)
    ensures caption != "" ==>
      before + ImgTag(filename) + "<p>" + caption + "</p>" == before + GalleryEntryHtml(filename, caption)
  {
    if caption != "" {
      assert GalleryEntryHtml(filename, caption) == ImgTag(filename) + ("<p>" + caption + "</p>");
    }
  }

  /** One more gallery item whose media id has metadata appends its markup and its image. */
  lemma GalleryStep(id: string, items: seq<GalleryItem>, i: nat, metadata: map<string, MediaMeta>,
                    unescape: string -> string)
    requires i < |items| && items[i].mediaId in metadata
    requires Gallery(id, items[..i], metadata, unescape).Ok?
    ensures var before := Gallery(id, items[..i], metadata, unescape).value;
      var meta := metadata[items[i].mediaId];
      var name := GalleryName(id, i, meta);
      Gallery(id, items[..i + 1], metadata, unescape)
        == Ok((before.0 + GalleryEntryHtml(name, items[i].caption), before.1 + [Download(unescape(meta.sourceUrl), name)]))
  {
    assert items[..i + 1][..i] == items[..i];
  }

  /** The gallery loop succeeds exactly when every item's media id has metadata. */
  lemma GalleryOk(id: string, items: seq<GalleryItem>, metadata: map<string, MediaMeta>, unescape: string -> string)
    ensures Gallery(id, items, metadata, unescape).Ok? <==> forall i :: 0 <= i < |items| ==> items[i].mediaId in metadata
  {
    if Gallery(id, items, metadata, unescape).Ok? {
      GalleryFiles(id, items, metadata, unescape);
    } else {
      GalleryThrowsAt(id, items, metadata, unescape);
    }
  }

  /** A failing gallery failed at an item without metadata. */
  lemma {:induction false} GalleryThrowsAt(id: string, items: seq<GalleryItem>, metadata: map<string, MediaMeta>,
                                           unescape: string -> string)
    requires Gallery(id, items, metadata, unescape).Throw?
    ensures exists i :: 0 <= i < |items| && items[i].mediaId !in metadata
    decreases |items|
  {
    var n := |items| - 1;
    var front := items[..n];
    if Gallery(id, front, metadata, unescape).Throw? {
      GalleryThrowsAt(id, front, metadata, unescape);
      var i :| 0 <= i < n && front[i].mediaId !in metadata;
      assert items[i] == front[i];
    } else {
      assert items[n].mediaId !in metadata;
    }
  }

  /** On success, image `i` is saved from its unescaped source URL under `<id>-img<i>.<ext>`. */
  lemma {:induction false} GalleryFiles(id: string, items: seq<GalleryItem>, metadata: map<string, MediaMeta>,
                                        unescape: string -> string)
    requires Gallery(id, items, metadata, unescape).Ok?
    ensures forall i :: 0 <= i < |items| ==>
      items[i].mediaId in metadata
      && Gallery(id, items, metadata, unescape).value.1[i]
         == Download(unescape(metadata[items[i].mediaId].sourceUrl), GalleryName(id, i, metadata[items[i].mediaId]))
    decreases |items|
  {
    if |items| > 0 {
      var n := |items| - 1;
      assert forall i :: 0 <= i < n ==> items[..n][i] == items[i];
      GalleryFiles(id, items[..n], metadata, unescape);
    }
  }

  /** No two gallery images are saved under the same name. */
  lemma GalleryNamesDistinct(id: string, items: seq<GalleryItem>, metadata: map<string, MediaMeta>,
                             unescape: string -> string, i: nat, j: nat)
    requires Gallery(id, items, metadata, unescape).Ok?
    requires i < j < |items|
    ensures Gallery(id, items, metadata, unescape).value.1[i].filename
         != Gallery(id, items, metadata, unescape).value.1[j].filename
  {
    GalleryFiles(id, items, metadata, unescape);
    var images := Gallery(id, items, metadata, unescape).value.1;
    if images[i].filename == images[j].filename {
      IndexedNamesDistinct(id + "-img", i, j, LastPart(metadata[items[i].mediaId].mime, "/"),
                           LastPart(metadata[items[j].mediaId].mime, "/"));
    }
  }

  /** Once an item lacks metadata, the whole gallery throws. */
  lemma {:induction false} GalleryThrowsFrom(id: string, items: seq<GalleryItem>, metadata: map<string, MediaMeta>,
                                             unescape: string -> string, n: nat)
    requires n <= |items| && Gallery(id, items[..n], metadata, unescape).Throw?
    ensures Gallery(id, items, metadata, unescape).Throw?
    decreases |items| - n
  {
    if n < |items| {
      var last := |items| - 1;
      assert items[..last][..n] == items[..n];
      GalleryThrowsFrom(id, items[..last], metadata, unescape, n);
    } else {
      assert items[..n] == items;
    }
  }

  /**
   * The `for (let item of data.gallery_data.items)` loop: `media` grows by
   * each image's markup and `i` counts the items.
   */
  method BuildGallery(id: string, items: seq<GalleryItem>, metadata: map<string, MediaMeta>, unescape: string -> string)
    returns (r: Result<(string, seq<Download>)>)
    ensures r == Gallery(id, items, metadata, unescape)
  {
    var media := "";
    var images: seq<Download> := [];
    var i := 0;
    while i < |items|
      invariant 0 <= i <= |items|
      invariant Gallery(id, items[..i], metadata, unescape) == Ok((media, images))
    {
      var item := items[i];
      if item.mediaId !in metadata {
        GalleryThrowsFrom(id, items, metadata, unescape, i + 1);
        return Throw(TypeErrorMessage);
      }
      var meta := metadata[item.mediaId];
      var filename := GalleryName(id, i, meta);
      GalleryStep(id, items, i, metadata, unescape);
      images := images + [Download(unescape(meta.sourceUrl), filename)];
      ghost var before := media;
      media := media + ImgTag(filename);
      if item.caption != "" {
        media := media + "<p>" + item.caption + "</p>";
      }
      GalleryHtmlAppend(before, filename, item.caption);
      i := i + 1;
    }
    assert items[..i] == items;
    return Ok((media, images));
  }

  /** The extensions a directly linked post may have. */
  const ImageExts: seq<string> := ["jpg", "jpeg", "jpeg:large", "jpg:large", "png", "gif", "bmp", "webp"]

  /**
   * A direct link, inside the `try` whose `catch` is empty. It is saved as
   * `<id>-img.<ext>` when its extension is an image one and neither
   * `https.get(data.url)` nor `resp.pipe(...)` throws: `getThrows(url)` is
   * whether `https.get` throws at once (Node does for a protocol other than
   * `https:`), and `pipeThrows` whether `pipe` throws on the object
   * `https.get` returned. Any of these errors leaves no media.
   */
  function DirectImage(id: string, url: string, getThrows: string -> bool, pipeThrows: bool): (r: Option<Download>)
    ensures r.Some? <==> ExtBeforeQuery(url) in ImageExts && !getThrows(url) && !pipeThrows
    ensures r.Some? ==> r.value == Download(url, id + "-img." + ExtBeforeQuery(url))
  {
    var ext := ExtBeforeQuery(url);
    if '/' in ext || '.' in ext then None
    else if ext !in ImageExts then None
    else if getThrows(url) then None
    else if pipeThrows then None
    else Some(Download(url, id + "-img." + ext))
  }

  /**
   * Node's `https.get` refuses a URL whose protocol is `http:`: `getThrows`
   * holds for every such URL.
   */
  ghost predicate RefusesHttp(getThrows: string -> bool) {
    forall u :: StartsWith(u, "http:") ==> getThrows(u)
  }

  /**
   * `https.get` without a callback returns the request object, and `pipe`
   * on a request throws: as written no direct link is ever saved.
   */
  lemma DirectLinkNeverSaved(id: string, post: Post, unescape: string -> string, getThrows: string -> bool)
    requires !post.isVideo && post.gallery.None? && post.oembedHtml.None?
    ensures PostMedia(id, post, unescape, getThrows, true) == Ok(NoMedia)
  {
  }

  /** A direct image link the code means to save. */
  const PngLink := "https://i.example.com/a.png"

  /** `https://i.example.com/a.png` has the image extension `png`, so `ImageLinkDropped` applies to it. */
  lemma PngLinkExt()
    ensures ExtBeforeQuery(PngLink) == "png" && "png" in ImageExts
  {
    assert ImageExts[4] == "png";
    var head := "https://i.example.com/a";
    var u := head + ['.'] + "png";
    assert u == PngLink;
    assert '?' !in u by {
      assert forall k :: 0 <= k < |u| ==> u[k] != '?';
    }
    CharNotFound(u, '?');
    LastPartAfter(head, '.', "png");
  }

  /**
   * A post that only links an image: as written it gets no media, and once
   * the response is piped in a callback, as the video and gallery branches
   * do, it gets the image.
   */
  lemma ImageLinkDropped(id: string, post: Post, unescape: string -> string, getThrows: string -> bool)
    requires !post.isVideo && post.gallery.None? && post.oembedHtml.None?
    requires ExtBeforeQuery(post.url) in ImageExts && !getThrows(post.url)
    ensures PostMedia(id, post, unescape, getThrows, true) == Ok(NoMedia)
    ensures PostMedia(id, post, unescape, getThrows, false)
      == Ok(ImageMedia(Download(post.url, id + "-img." + ExtBeforeQuery(post.url))))
  {
  }

  /** A plain `http:` link is never saved, whatever `pipe` does. */
  lemma HttpLinkNotSaved(id: string, url: string, getThrows: string -> bool, pipeThrows: bool)
    requires RefusesHttp(getThrows) && StartsWith(url, "http:")
    ensures DirectImage(id, url, getThrows, pipeThrows).None?
  {
  }

  /**
   * The media of a post: a video first, then a gallery, then an embed, then
   * a direct image link.
   */
  function PostMedia(id: string, post: Post, unescape: string -> string, getThrows: string -> bool, pipeThrows: bool)
    : (r: Result<Media>)
    ensures post.isVideo ==> r.Ok? && r.value.VideoMedia?
    ensures !post.isVideo && post.gallery.Some? ==>
      (r.Ok? <==> Gallery(id, post.gallery.value, post.metadata, unescape).Ok?)
      && (r.Ok? ==> r.value.GalleryMedia?)
    ensures !post.isVideo && post.gallery.None? ==> r.Ok?
    ensures !post.isVideo && post.gallery.None? && post.oembedHtml.Some? ==> r == Ok(EmbedMedia(post.oembedHtml.value))
    ensures !post.isVideo && post.gallery.None? && post.oembedHtml.None? ==>
      r == Ok(match DirectImage(id, post.url, getThrows, pipeThrows)
              case Some(image) => ImageMedia(image)
              case None => NoMedia)
  {
    if post.isVideo then
      var v := post.video;
      var vidUrl := if v.fallbackUrl != "" then v.fallbackUrl else v.scrubberUrl;
      var ext := ExtBeforeQuery(vidUrl);
      Ok(VideoMedia(Download(vidUrl, id + "-vid." + ext), ext, v.width, v.height))
    else if post.gallery.Some? then
      match Gallery(id, post.gallery.value, post.metadata, unescape)
      case Throw(e) => Throw(e)
      case Ok((html, images)) => Ok(GalleryMedia(html, images))
    else if post.oembedHtml.Some? then Ok(EmbedMedia(post.oembedHtml.value))
    else if post.url != "" then
      match DirectImage(id, post.url, getThrows, pipeThrows)
      case Some(image) => Ok(ImageMedia(image))
      case None => Ok(NoMedia)
    else
      assert ExtBeforeQuery(post.url) == "" by {
        assert Split("", "?") == [""];
        assert Split("", ".") == [""];
      }
      Ok(NoMedia)
  }

  // Badges

  /** The badges a post can show, in the order the code pushes them. */
  datatype Badge = Edited | Pinned | Nsfw | Locked

  /** The text pushed for each badge. */
  function Label(badge: Badge): string {
    match badge
    case Edited => "EDITED"
    case Pinned => "PINNED"
    case Nsfw => "NSFW"
    case Locked => "LOCKED"
  }

  /** The `x === 'NSFW'` test picks out exactly the NSFW badge. */
  lemma NsfwLabel(badge: Badge)
    ensures Label(badge) == "NSFW" <==> badge == Nsfw
  {
    if badge != Nsfw {
      assert Label(badge)[0] != 'N';
    }
  }

  /** The place of each badge in the push order. */
  function BadgeRank(badge: Badge): nat {
    match badge
    case Edited => 0
    case Pinned => 1
    case Nsfw => 2
    case Locked => 3
  }

  /** The badges of a post with these flags, as the `badges.push` calls leave them. */
  function Badges(edited: bool, pinned: bool, over18: bool, locked: bool): seq<Badge> {
    (if edited then [Edited] else []) + (if pinned then [Pinned] else [])
    + (if over18 then [Nsfw] else []) + (if locked then [Locked] else [])
  }

  /** One badge per set flag, in the order EDITED, PINNED, NSFW, LOCKED. */
  lemma BadgesInOrder(edited: bool, pinned: bool, over18: bool, locked: bool)
    ensures var badges := Badges(edited, pinned, over18, locked);
      && (Edited in badges <==> edited) && (Pinned in badges <==> pinned)
      && (Nsfw in badges <==> over18) && (Locked in badges <==> locked)
      && forall p, q :: 0 <= p < q < |badges| ==> BadgeRank(badges[p]) < BadgeRank(badges[q])
  {
  }

  /** The `badges.push` calls. */
  method CollectBadges(edited: bool, pinned: bool, over18: bool, locked: bool) returns (badges: seq<Badge>)
    ensures badges == Badges(edited, pinned, over18, locked)
  {
    badges := [];
    if edited {
      badges := badges + [Edited];
    }
    if pinned {
      badges := badges + [Pinned];
    }
    if over18 {
      badges := badges + [Nsfw];
    }
    if locked {
      badges := badges + [Locked];
    }
  }

  /** A badge as the page shows it: its text, and whether it carries `class="nsfw"`. */
  datatype Span = Span(text: string, nsfw: bool)

  /** The badge paragraph: absent when there are no badges, else one span per badge in order. */
  function BadgeParagraph(badges: seq<Badge>): (r: Option<seq<Span>>)
    ensures r.None? <==> |badges| == 0
    ensures r.Some? ==> |r.value| == |badges| && forall i :: 0 <= i < |badges| ==>
      r.value[i].text == Label(badges[i]) && (r.value[i].nsfw <==> badges[i] == Nsfw)
  {
    if |badges| == 0 then None
    else Some(seq(|badges|, i requires 0 <= i < |badges| => Span(Label(badges[i]), Label(badges[i]) == "NSFW")))
  }

  /** What the post page shows that the model derives, and the file it is written to. */
  datatype PostPage = PostPage(file: string, author: string, badges: Option<seq<Span>>, media: Media,
                               body: string, spoiler: bool)

  /**
   * `downloadRedditPost` once the API has answered with `post`: the request
   * it made, and the page, or the error the gallery loop threw.
   */
  method DownloadRedditPost(url: string, dest: string, id: string, post: Post, unescape: string -> string,
                            getThrows: string -> bool, pipeThrows: bool)
    returns (request: string, r: Result<PostPage>)
    ensures request == ApiUrl("t3_", url)
    ensures r.Ok? <==> PostMedia(id, post, unescape, getThrows, pipeThrows).Ok?
    ensures r.Throw? ==> r == Throw(PostMedia(id, post, unescape, getThrows, pipeThrows).message)
    ensures r.Ok? ==> r.value.media == PostMedia(id, post, unescape, getThrows, pipeThrows).value
    ensures r.Ok? ==> r.value.file == PathJoin(dest, id + ".html") && r.value.author == AuthorName(post.author)
    ensures r.Ok? ==> r.value.badges == BadgeParagraph(Badges(post.edited, post.pinned, post.over18, post.locked))
    ensures r.Ok? ==> r.value.body == post.selftextHtml && r.value.spoiler == post.spoiler
  {
    request := ApiUrl("t3_", url);
    var media: Media;
    if post.isVideo || post.gallery.None? {
      media := PostMedia(id, post, unescape, getThrows, pipeThrows).value;
    } else {
      var gallery := BuildGallery(id, post.gallery.value, post.metadata, unescape);
      if gallery.Throw? {
        return request, Throw(gallery.message);
      }
      media := GalleryMedia(gallery.value.0, gallery.value.1);
    }
    var badges := CollectBadges(post.edited, post.pinned, post.over18, post.locked);
    r := Ok(PostPage(PathJoin(dest, id + ".html"), AuthorName(post.author), BadgeParagraph(badges), media,
                     post.selftextHtml, post.spoiler));
  }

  /** `downloadRedditComment` once the API has answered: the request, the page file, author and body. */
  function DownloadRedditComment(url: string, dest: string, id: string, author: string, bodyHtml: string)
    : (r: (string, string, string, string))
    ensures r.0 == ApiUrl("t1_", url) && r.1 == PathJoin(dest, id + ".html")
    ensures r.2 == AuthorName(author) && r.3 == bodyHtml
  {
    (ApiUrl("t1_", url), PathJoin(dest, id + ".html"), AuthorName(author), bodyHtml)
  }
}
