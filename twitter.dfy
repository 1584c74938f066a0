/**
 * src/commands/downloader/twitter.js: the `isTwitter` classifier, and the
 * media loop of `downloadTwitter` that names, saves and marks up each item
 * of the tweet.
 */
module Twitter {
  import opened Js
  import opened Text
  import opened FileNames
  import opened TwitterApi

  const TwitterPrefix := "https://twitter.com/"

  /** `[A-Za-z0-9=_-]`. */
  predicate IsQueryChar(c: char) {
    'A' <= c <= 'Z' || 'a' <= c <= 'z' || IsDigit(c) || c == '=' || c == '_' || c == '-'
  }

  predicate IsQuestionMark(c: char) {
    c == '?'
  }

  /** `\d+\?*[A-Za-z0-9=_-]*$` read position by position: digits up to `e`, `?` up to `q`, then query characters. */
  ghost predicate TailSplit(t: string, e: nat, q: nat) {
    0 < e <= q <= |t| && AllDigits(t[..e])
    && (forall j :: e <= j < q ==> t[j] == '?')
    && (forall j :: q <= j < |t| ==> IsQueryChar(t[j]))
  }

  /** The same decided greedily: the longest digit run, then the longest `?` run, then only query characters. */
  predicate TweetTail(t: string) {
    var e := RunEnd(t, 0, IsDigit);
    var q := RunEnd(t, e, IsQuestionMark);
    0 < e && forall j :: q <= j < |t| ==> IsQueryChar(t[j])
  }

  /** The greedy decision is exactly the regex: no other split succeeds where it fails. */
  lemma TweetTailIsRegex(t: string)
    ensures TweetTail(t) <==> exists e: nat, q: nat :: TailSplit(t, e, q)
  {
    var e := RunEnd(t, 0, IsDigit);
    var q := RunEnd(t, e, IsQuestionMark);
    if TweetTail(t) {
      assert TailSplit(t, e, q);
    }
    if exists e0: nat, q0: nat :: TailSplit(t, e0, q0) {
      var e0: nat, q0: nat :| TailSplit(t, e0, q0);
      assert forall j :: 0 <= j < e0 ==> t[..e0][j] == t[j];
      assert e0 <= e;
      if e == e0 {
        assert q0 <= q;
      } else {
        assert t[..e][e0] == t[e0];
        assert q0 == e0;
      }
    }
  }

  /**
   * `/status/` at `s` ends the lazy run after the host (one or more
   * characters, no line break) and is followed by a tweet tail.
   */
  predicate StatusAt(u: string, s: nat) {
    |TwitterPrefix| < s && s + 8 <= |u| && NoLineTerminator(u[|TwitterPrefix|..s])
    && u[s..s + 8] == "/status/" && TweetTail(u[s + 8..])
  }

  /** `isTwitter(url)`: after one trailing `/` is removed, the host prefix and a `/status/` with a tweet tail. */
  predicate IsTwitter(url: string) {
    var u := DropTrailingSlash(url);
    StartsWith(u, TwitterPrefix) && exists s | 0 <= s <= |u| :: StatusAt(u, s)
  }

  /** A status tail never ends in `/`: its last character is a digit, a `?` or a query character. */
  lemma TweetTailLast(digits: string, marks: string, query: string)
    requires digits != "" && AllDigits(digits)
    requires forall j :: 0 <= j < |marks| ==> marks[j] == '?'
    requires forall j :: 0 <= j < |query| ==> IsQueryChar(query[j])
    ensures var t := digits + marks + query; t[|t| - 1] != '/'
  {
    var t := digits + marks + query;
    if |query| > 0 {
      assert t[|t| - 1] == query[|query| - 1];
    } else if |marks| > 0 {
      assert t[|t| - 1] == marks[|marks| - 1];
    } else {
      assert t[|t| - 1] == digits[|digits| - 1];
    }
  }

  /** Every status link passes, with or without a trailing `/`. */
  lemma StatusUrlPasses(user: string, digits: string, marks: string, query: string)
    requires user != "" && NoLineTerminator(user)
    requires digits != "" && AllDigits(digits)
    requires forall j :: 0 <= j < |marks| ==> marks[j] == '?'
    requires forall j :: 0 <= j < |query| ==> IsQueryChar(query[j])
    ensures IsTwitter(TwitterPrefix + user + "/status/" + digits + marks + query)
    ensures IsTwitter(TwitterPrefix + user + "/status/" + digits + marks + query + "/")
  {
    var u := TwitterPrefix + user + "/status/" + digits + marks + query;
    var s := |TwitterPrefix| + |user|;
    var t := digits + marks + query;
    assert u[s + 8..] == t;
    assert t[..|digits|] == digits;
    assert TailSplit(t, |digits|, |digits| + |marks|);
    TweetTailIsRegex(t);
    assert u[|TwitterPrefix|..s] == user;
    assert u[s..s + 8] == "/status/";
    assert StatusAt(u, s);
    assert u[..|TwitterPrefix|] == TwitterPrefix;
    TweetTailLast(digits, marks, query);
    assert u[|u| - 1] == t[|t| - 1];
    assert DropTrailingSlash(u) == u;
    assert DropTrailingSlash(u + "/") == u by {
      assert (u + "/")[..|u|] == u;
    }
  }

  /** A tweet link is one `getTwitterMedia` accepts and sends to `https://api.vxtwitter.com/`. */
  lemma TweetUrlUsesApi(url: string)
    requires IsTwitter(url)
    ensures MentionsTwitter(url)
    ensures ApiUrl(url) == url[..6] + "//api.vxtwitter.com" + url[19..]
  {
    var u := DropTrailingSlash(url);
    assert url[..|TwitterPrefix|] == u[..|TwitterPrefix|];
    var scheme := url[..6];
    var host := url[6..19];
    assert scheme == TwitterPrefix[..6];
    assert host == TwitterPrefix[6..19];
    assert url == scheme + host + url[19..];
    HostLiteral(scheme, host);
    ApiUrlRewritesHost(scheme, url[19..]);
    LiteralHostMentions(url, 6);
  }

  lemma HostLiteral(scheme: string, host: string)
    requires scheme == TwitterPrefix[..6] && host == TwitterPrefix[6..19]
    ensures '/' !in scheme && host == "//twitter.com"
  {
  }

  /** The options `downloadTwitter` passes: no buffers, with the text. */
  const FetchOptions: map<string, Value> := map["buffer" := Bool(false), "text" := Bool(true)]

  /** The buffer fetcher the downloader never needs, since it asks for no buffers. */
  function NoBuffer(url: Value): Value {
    Undefined
  }

  /** What `getTwitterMedia(url, {buffer: false, text: true})` answers. */
  function TweetAnswer(url: string, fetch: string -> Option<Value>): Result<Outcome> {
    Answer(map["url" := Str(url)] + FetchOptions, fetch, NoBuffer)
  }

  /** The tag a page shows a saved video with, typed by its extension. */
  function VideoTag(ext: string, filename: string): (r: string)
    ensures StartsWith(r, "<video controls>") && Includes(r, filename)
  {
    var r := "<video controls><source type=\"video/" + ext + "\" src=\"" + filename + "\"></video>";
    var at := 36 + |ext| + 7;
    assert r[at..at + |filename|] == filename;
    IncludesAt(r, filename, at);
    r
  }

  /** The markup of one item: `<img>` for `image`, `<video>` for `video`, nothing for any other type. */
  function MediaMarkup(kind: Value, ext: string, filename: string): (r: string)
    ensures kind == Str("image") ==> r == ImgTag(filename)
    ensures kind == Str("video") ==> r == VideoTag(ext, filename)
    ensures kind != Str("image") && kind != Str("video") ==> r == ""
  {
    if kind == Str("image") then ImgTag(filename)
    else if kind == Str("video") then VideoTag(ext, filename)
    else ""
  }

  /** The file of the `i`-th item: `<id>-<i>.<ext>`. */
  function MediaName(id: string, i: nat, url: string): string {
    IndexedName(id + "-", i, ExtBeforeQuery(url))
  }

  /**
   * The loop over the first `|media|` items: the markup so far and the files
   * to save, or the `TypeError` of an item whose URL is not a string.
   */
  function TweetMedia(id: string, media: seq<MediaRef>): (r: Result<(string, seq<Download>)>)
    decreases |media|
    ensures r.Throw? ==> r.message == TypeErrorMessage
    ensures r.Ok? ==> |r.value.1| == |media|
  {
    if |media| == 0 then Ok(("", []))
    else
      var n := |media| - 1;
      match TweetMedia(id, media[..n])
      case Throw(e) => Throw(e)
      case Ok((html, files)) =>
        match MediaItem(id, n, media[n])
        case Throw(e) => Throw(e)
        case Ok((markup, file)) => Ok((html + markup, files + [file]))
  }

  /** One pass of the loop body: the item's markup and the file it is saved to. */
  function MediaItem(id: string, i: nat, item: MediaRef): (r: Result<(string, Download)>)
    ensures r.Ok? <==> item.url.Str?
    ensures r.Throw? ==> r.message == TypeErrorMessage
    ensures r.Ok? ==> r.value.1 == Download(item.url.s, MediaName(id, i, item.url.s))
  {
    if !item.url.Str? then Throw(TypeErrorMessage)
    else
      var name := MediaName(id, i, item.url.s);
      Ok((MediaMarkup(item.kind, ExtBeforeQuery(item.url.s), name), Download(item.url.s, name)))
  }

  /** The loop succeeds exactly when every item's URL is a string. */
  lemma TweetMediaOk(id: string, media: seq<MediaRef>)
    ensures TweetMedia(id, media).Ok? <==> forall i :: 0 <= i < |media| ==> media[i].url.Str?
  {
    if TweetMedia(id, media).Ok? {
      TweetMediaFiles(id, media);
    } else {
      TweetMediaThrowsAt(id, media);
    }
  }

  /** A failing loop failed at some item whose URL is not a string. */
  lemma {:induction false} TweetMediaThrowsAt(id: string, media: seq<MediaRef>)
    requires TweetMedia(id, media).Throw?
    ensures exists i :: 0 <= i < |media| && !media[i].url.Str?
    decreases |media|
  {
    var n := |media| - 1;
    var front := media[..n];
    if TweetMedia(id, front).Throw? {
      TweetMediaThrowsAt(id, front);
      var i :| 0 <= i < n && !front[i].url.Str?;
      assert media[i] == front[i];
    } else {
      assert !media[n].url.Str?;
    }
  }

  /** On success, item `i` is saved from its URL under `<id>-<i>.<ext>`. */
  lemma {:induction false} TweetMediaFiles(id: string, media: seq<MediaRef>)
    requires TweetMedia(id, media).Ok?
    ensures |TweetMedia(id, media).value.1| == |media|
    ensures forall i :: 0 <= i < |media| ==>
      media[i].url.Str? && TweetMedia(id, media).value.1[i] == Download(media[i].url.s, MediaName(id, i, media[i].url.s))
    decreases |media|
  {
    if |media| > 0 {
      var n := |media| - 1;
      TweetMediaFiles(id, media[..n]);
      assert forall i :: 0 <= i < n ==> media[..n][i] == media[i];
      TweetMediaLast(id, media);
      FilesExtend(id, media, TweetMedia(id, media[..n]).value.1, TweetMedia(id, media).value.1);
    }
  }

  /** A successful loop over `n + 1` items is the loop over the first `n`, then item `n`. */
  lemma TweetMediaLast(id: string, media: seq<MediaRef>)
    requires |media| > 0 && TweetMedia(id, media).Ok?
    ensures TweetMedia(id, media[..|media| - 1]).Ok? && media[|media| - 1].url.Str?
    ensures TweetMedia(id, media).value.1 == TweetMedia(id, media[..|media| - 1]).value.1 +
      [Download(media[|media| - 1].url.s, MediaName(id, |media| - 1, media[|media| - 1].url.s))]
  {
  }

  /** Appending item `n`'s file to the files of the first `n` items keeps every file at its index. */
  lemma FilesExtend(id: string, media: seq<MediaRef>, front: seq<Download>, files: seq<Download>)
    requires |media| > 0 && |front| == |media| - 1
    requires forall i :: 0 <= i < |front| ==>
      media[i].url.Str? && front[i] == Download(media[i].url.s, MediaName(id, i, media[i].url.s))
    requires media[|media| - 1].url.Str?
    requires files == front + [Download(media[|media| - 1].url.s, MediaName(id, |media| - 1, media[|media| - 1].url.s))]
    ensures forall i :: 0 <= i < |media| ==>
      media[i].url.Str? && files[i] == Download(media[i].url.s, MediaName(id, i, media[i].url.s))
  {
  }

  /** Every item takes a counter value, so no two items share a file. */
  lemma TweetMediaNamesDistinct(id: string, media: seq<MediaRef>, i: nat, j: nat)
    requires TweetMedia(id, media).Ok? && i < j < |media|
    ensures TweetMedia(id, media).value.1[i].filename != TweetMedia(id, media).value.1[j].filename
  {
    TweetMediaFiles(id, media);
    var files := TweetMedia(id, media).value.1;
    if files[i].filename == files[j].filename {
      IndexedNamesDistinct(id + "-", i, j, ExtBeforeQuery(media[i].url.s), ExtBeforeQuery(media[j].url.s));
    }
  }

  /** Items that are neither images nor videos add no markup, though each still takes a counter value. */
  lemma {:induction false} UntypedMediaNoMarkup(id: string, media: seq<MediaRef>)
    requires TweetMedia(id, media).Ok?
    requires forall i :: 0 <= i < |media| ==> media[i].kind != Str("image") && media[i].kind != Str("video")
    ensures TweetMedia(id, media).value.0 == ""
    decreases |media|
  {
    if |media| > 0 {
      var n := |media| - 1;
      assert forall i :: 0 <= i < n ==> media[..n][i] == media[i];
      UntypedMediaNoMarkup(id, media[..n]);
    }
  }

  /** Once an item's URL is not a string, the loop throws. */
  lemma {:induction false} TweetMediaThrowsFrom(id: string, media: seq<MediaRef>, n: nat)
    requires n <= |media| && TweetMedia(id, media[..n]).Throw?
    ensures TweetMedia(id, media).Throw?
    decreases |media| - n
  {
    if n < |media| {
      var last := |media| - 1;
      assert media[..last][..n] == media[..n];
      TweetMediaThrowsFrom(id, media[..last], n);
    } else {
      assert media[..n] == media;
    }
  }

  /** The `for (let media of result.media)` loop: `data` grows by each item's markup and `i` counts every item. */
  method MediaLoop(id: string, media: seq<MediaRef>) returns (r: Result<(string, seq<Download>)>)
    ensures r == TweetMedia(id, media)
  {
    var data := "";
    var files: seq<Download> := [];
    var i := 0;
    while i < |media|
      invariant 0 <= i <= |media|
      invariant TweetMedia(id, media[..i]) == Ok((data, files))
    {
      var item := media[i];
      assert media[..i + 1][..i] == media[..i];
      if !item.url.Str? {
        TweetMediaThrowsFrom(id, media, i + 1);
        return Throw(TypeErrorMessage);
      }
      var ext := ExtBeforeQuery(item.url.s);
      var filename := IndexedName(id + "-", i, ext);
      files := files + [Download(item.url.s, filename)];
      ghost var before := data;
      if item.kind == Str("image") {
        data := data + ImgTag(filename);
      } else if item.kind == Str("video") {
        data := data + VideoTag(ext, filename);
      }
      assert data == before + MediaMarkup(item.kind, ext, filename);
      i := i + 1;
    }
    assert media[..i] == media;
    return Ok((data, files));
  }

  /** What the tweet page shows that the model derives, and the file it is written to. */
  datatype TweetPage = TweetPage(file: string, text: string, mediaHtml: string, files: seq<Download>)

  /**
   * `downloadTwitter(url, dest, id)`, with `fetch` answering the API request
   * and `escape` and `linkify` standing for the helpers of the same names.
   * The `found` flag is never read: an answer without media fails in the loop.
   */
  method DownloadTwitter(url: string, dest: string, id: string, fetch: string -> Option<Value>,
                         escape: Value -> string, linkify: string -> string)
    returns (r: Result<TweetPage>)
    ensures TweetAnswer(url, fetch).Throw? ==> r == Throw(TweetAnswer(url, fetch).message)
    ensures TweetAnswer(url, fetch).Ok? && TweetAnswer(url, fetch).value.NotFound? ==> r == Throw(TypeErrorMessage)
    ensures TweetAnswer(url, fetch).Ok? && TweetAnswer(url, fetch).value.Found? ==>
      && (r.Ok? <==> TweetMedia(id, TweetAnswer(url, fetch).value.media).Ok?)
      && (r.Throw? ==> r == Throw(TweetMedia(id, TweetAnswer(url, fetch).value.media).message))
    ensures r.Ok? ==>
      && TweetAnswer(url, fetch).Ok? && TweetAnswer(url, fetch).value.Found?
      && TweetMedia(id, TweetAnswer(url, fetch).value.media) == Ok((r.value.mediaHtml, r.value.files))
      && TweetAnswer(url, fetch).value.text.Some?
      && r.value.text == linkify(escape(TweetAnswer(url, fetch).value.text.value))
      && r.value.file == PathJoin(dest, id + ".html")
  {
    var result := GetTwitterMedia(StringArg(url), Some(FetchOptions), ["buffer", "text"], fetch, NoBuffer);
    if result.Throw? {
      return Throw(result.message);
    }
    if result.value.NotFound? {
      return Throw(TypeErrorMessage);
    }
    var found := result.value;
    var media := MediaLoop(id, found.media);
    if media.Throw? {
      return Throw(media.message);
    }
    assert Truthy(Get(map["url" := Str(url)] + FetchOptions, "text"));
    var text := linkify(escape(found.text.value));
    return Ok(TweetPage(PathJoin(dest, id + ".html"), text, media.value.0, media.value.1));
  }
}
