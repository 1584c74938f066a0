/**
 * src/commands/downloader/soundcloud.js: the `isSoundCloud` classifier, the
 * thumbnail's data URL, and the description and comment section of the
 * page `downloadSoundCloud` writes.
 */
module SoundCloud {
  import opened Js
  import opened Text
  import AudioBackup

  /**
   * The part after `https://soundcloud<c>com/`: `[^/]+\/([^/]+)$`, two
   * non-empty pieces without `/` (they may hold line breaks).
   */
  predicate TwoSegments(t: string) {
    var parts := Split(t, "/");
    |parts| == 2 && parts[0] != "" && parts[1] != ""
  }

  /**
   * `isSoundCloud(url)`: after one trailing `/` is removed, the URL is
   * `https://soundcloud`, any character but a line break (the regex leaves
   * its `.` unescaped), `com/`, and exactly two segments.
   */
  predicate IsSoundCloud(url: string) {
    var u := DropTrailingSlash(url);
    |u| >= 23 && StartsWith(u, "https://soundcloud") && !IsLineTerminator(u[18])
    && u[19..23] == "com/" && TwoSegments(u[23..])
  }

  /** Every URL of that shape passes, with or without a trailing `/`. */
  lemma {:induction false} SoundCloudUrlPasses(c: char, user: string, track: string)
    requires !IsLineTerminator(c)
    requires user != "" && track != "" && '/' !in user && '/' !in track
    ensures IsSoundCloud("https://soundcloud" + [c] + "com/" + user + "/" + track)
    ensures IsSoundCloud("https://soundcloud" + [c] + "com/" + user + "/" + track + "/")
  {
    var u := "https://soundcloud" + [c] + "com/" + user + "/" + track;
    assert u[|u| - 1] == track[|track| - 1];
    assert DropTrailingSlash(u) == u;
    assert DropTrailingSlash(u + "/") == u by {
      assert (u + "/")[..|u|] == u;
    }
    assert u[..18] == "https://soundcloud";
    assert u[19..23] == "com/";
    assert u[23..] == user + ['/'] + track;
    SplitAtOnlyChar(user, '/', track);
  }

  /** The text after the last `/` of the trimmed URL: the id `songUrlToId` stores. */
  function TrackSegment(url: string): string {
    LastPart(DropTrailingSlash(url), "/")
  }

  /** For a URL that passes, that text is the second segment: non-empty and without `/`. */
  lemma {:induction false} SoundCloudTrack(url: string)
    requires IsSoundCloud(url)
    ensures var u := DropTrailingSlash(url);
      TrackSegment(url) == Split(u[23..], "/")[1] && TrackSegment(url) != "" && '/' !in TrackSegment(url)
  {
    var u := DropTrailingSlash(url);
    var t := u[23..];
    var parts := Split(t, "/");
    JoinSplit(t, "/");
    assert t == parts[0] + "/" + parts[1];
    SplitPartsExcludeSep(t, "/", 1);
    NotIncludesChar(parts[1], '/');
    assert u == (u[..23] + parts[0]) + ['/'] + parts[1];
    LastPartAfter(u[..23] + parts[0], '/', parts[1]);
  }

  /** `resp.headers['content-type']` as text: `undefined` when the header is absent. */
  function HeaderText(contentType: Option<string>): string {
    match contentType
    case None => "undefined"
    case Some(t) => t
  }

  /** The thumbnail inlined as `data:<content-type>;base64,<body>`. */
  function DataUrl(contentType: Option<string>, base64: string): string {
    "data:" + HeaderText(contentType) + ";base64," + base64
  }

  /**
   * Read back as a data URL (section 2 of RFC 2397): the text between
   * `data:` and the first `,` is the media type marked `;base64`, and the
   * rest is the encoded body, whenever the media type holds no `,`.
   */
  lemma {:induction false} DataUrlParses(contentType: Option<string>, base64: string)
    requires ',' !in HeaderText(contentType)
    ensures var d := DataUrl(contentType, base64);
      var comma := |d| - |base64| - 1;
      && StartsWith(d, "data:")
      && IndexOf(d, ",", 0) == Some(comma)
      && d[5..comma] == HeaderText(contentType) + ";base64"
      && d[comma + 1..] == base64
  {
    var h := HeaderText(contentType);
    var head := "data:" + h + ";base64";
    assert ',' !in "data:" && ',' !in ";base64";
    assert ',' !in head;
    FirstCharAfter(head, ',', base64);
    var d := DataUrl(contentType, base64);
    assert d == head + [','] + base64;
    assert d[5..|head|] == h + ";base64";
  }

  /** A comment as the scraper reports it; `date` is its locale-formatted creation date. */
  datatype Comment = Comment(authorUrl: string, authorName: string, date: string, text: string)

  /** One comment block of the page, its text with line breaks as `<br>`. */
  datatype CommentBlock = CommentBlock(authorUrl: string, authorName: string, date: string, html: string)

  /** The comment section: the `No comments` placeholder and the blocks, one per comment in order. */
  datatype Comments = Comments(placeholder: string, blocks: seq<CommentBlock>)

  function CommentBlocks(cs: seq<Comment>): (r: seq<CommentBlock>)
    ensures |r| == |cs|
    ensures forall i :: 0 <= i < |cs| ==>
      && r[i].authorUrl == cs[i].authorUrl && r[i].authorName == cs[i].authorName
      && r[i].date == cs[i].date && '\n' !in r[i].html
      && ('<' !in cs[i].text ==> BrToNewlines(r[i].html) == cs[i].text)
  {
    assert forall i :: 0 <= i < |cs| && '<' !in cs[i].text ==>
      BrToNewlines(NewlinesToBr(cs[i].text)) == cs[i].text
    by {
      forall i | 0 <= i < |cs| && '<' !in cs[i].text
        ensures BrToNewlines(NewlinesToBr(cs[i].text)) == cs[i].text
      {
        NewlinesToBrInverts(cs[i].text);
      }
    }
    seq(|cs|, i requires 0 <= i < |cs| =>
      CommentBlock(cs[i].authorUrl, cs[i].authorName, cs[i].date, NewlinesToBr(cs[i].text)))
  }

  /** `No comments` exactly when there are none; otherwise one block per comment. */
  function CommentSection(cs: seq<Comment>): (r: Comments)
    ensures r.placeholder == "No comments" <==> |cs| == 0
    ensures r.placeholder == "" <==> |cs| != 0
    ensures |r.blocks| == |cs|
    ensures |cs| != 0 ==> r.blocks == CommentBlocks(cs)
  {
    if |cs| == 0 then Comments("No comments", []) else Comments("", CommentBlocks(cs))
  }

  /** What the scraper reports about a track, as far as the page uses it. */
  datatype Song = Song(title: string, description: string, comments: seq<Comment>)

  /** Everything the page shows that the model derives. */
  datatype Page = Page(title: string, imgSrc: string, audioSrc: string, description: string, comments: Comments)

  /**
   * `downloadSoundCloud`'s files and page, given the scraped track, the
   * thumbnail response's content type and its body in base64.
   */
  function DownloadSoundCloud(dest: string, id: string, song: Song, contentType: Option<string>, base64: string)
    : (r: (AudioBackup.Files, Page))
    ensures r.1.audioSrc == r.0.audioSrc && r.0.audioPath == PathJoin(dest, r.1.audioSrc)
    ensures r.1.imgSrc == DataUrl(contentType, base64)
    ensures '\n' !in r.1.description
    ensures '<' !in song.description ==> BrToNewlines(r.1.description) == song.description
    ensures r.1.comments == CommentSection(song.comments)
  {
    assert '<' !in song.description ==> BrToNewlines(NewlinesToBr(song.description)) == song.description
    by {
      if '<' !in song.description {
        NewlinesToBrInverts(song.description);
      }
    }
    var files := AudioBackup.SavedFiles(dest, id);
    (files, Page(song.title, DataUrl(contentType, base64), files.audioSrc,
                 NewlinesToBr(song.description), CommentSection(song.comments)))
  }
}
