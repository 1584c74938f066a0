/**
 * src/commands/downloader/newgrounds.js: the `isNewgrounds` classifier,
 * and what `downloadNewgrounds` reads from the song's page: the escaped
 * song URL, the author comments and the title.
 */
module Newgrounds {
  import opened Js
  import opened Text
  import AudioBackup

  const ListenPrefix := "https://www.newgrounds.com/audio/listen/"

  /**
   * The regex `isNewgrounds` tests once one trailing `/` is removed: the
   * listen prefix and then one or more digits up to the end.
   */
  predicate IsNewgroundsUrl(url: string) {
    var u := DropTrailingSlash(url);
    StartsWith(u, ListenPrefix) && |u| > |ListenPrefix| && AllDigits(u[|ListenPrefix|..])
  }

  /**
   * `isNewgrounds(url)` is declared `async`: it returns a promise of the
   * regex verdict, and a promise is truthy whatever it settles to.
   */
  function IsNewgrounds(url: string): (r: Value)
    ensures Truthy(r)
    ensures r.Promise? && (r.settled == Bool(true) <==> IsNewgroundsUrl(url))
  {
    Promise(Bool(IsNewgroundsUrl(url)))
  }

  /** A listen URL passes, with or without a trailing `/`, and its last segment is the number. */
  lemma {:induction false} ListenUrlPasses(digits: string)
    requires digits != "" && AllDigits(digits)
    ensures IsNewgroundsUrl(ListenPrefix + digits) && IsNewgroundsUrl(ListenPrefix + digits + "/")
    ensures LastPart(DropTrailingSlash(ListenPrefix + digits), "/") == digits
  {
    var u := ListenPrefix + digits;
    assert u[|u| - 1] == digits[|digits| - 1];
    assert DropTrailingSlash(u) == u;
    assert DropTrailingSlash(u + "/") == u by {
      assert (u + "/")[..|u|] == u;
    }
    assert u[|ListenPrefix|..] == digits;
    assert '/' !in digits by {
      forall k | 0 <= k < |digits|
        ensures digits[k] != '/'
      {
        assert IsDigit(digits[k]);
      }
    }
    assert u == ListenPrefix[..39] + ['/'] + digits;
    LastPartAfter(ListenPrefix[..39], '/', digits);
  }

  // The song URL: /https:\\\/\\\/audio\.ngfiles\.com\\\/\d+\\\/.+?\.mp3/

  /** `https:\/\/audio.ngfiles.com\/` as it appears, JSON-escaped, in the page. */
  const EscapedHost := "https:\\/\\/audio.ngfiles.com\\/"

  const EscapedSlash := "\\/"

  /**
   * The lazy `.+?\.mp3` started at `q`, having tried every end before `e`:
   * the first `.mp3` at `e` or later that no line break comes before.
   */
  function LazyMp3(s: string, q: nat, e: nat): (r: Option<nat>)
    requires q + 1 <= e && e - 1 <= |s|
    requires forall j :: q <= j < e - 1 ==> !IsLineTerminator(s[j])
    decreases |s| + 1 - e
    ensures r.Some? ==> e <= r.value && OccursAt(s, ".mp3", r.value)
    ensures r.Some? ==> forall j :: q <= j < r.value ==> !IsLineTerminator(s[j])
    ensures r.Some? ==> forall x :: e <= x < r.value ==> !OccursAt(s, ".mp3", x)
  {
    if e > |s| || IsLineTerminator(s[e - 1]) then None
    else if OccursAt(s, ".mp3", e) then Some(e)
    else LazyMp3(s, q, e + 1)
  }

  /**
   * The song regex tried at `i`: where the digits end and where `.mp3`
   * begins. `\d+` is followed by `\`, so it takes the whole run of digits.
   */
  function SongMatchAt(s: string, i: nat): (r: Option<(nat, nat)>)
    ensures r.Some? ==>
      var (d, e) := r.value;
      && OccursAt(s, EscapedHost, i) && i + 29 < d && OccursAt(s, EscapedSlash, d)
      && AllDigits(s[i + 29..d]) && d + 2 < e && OccursAt(s, ".mp3", e)
      && NoLineTerminator(s[d + 2..e])
  {
    if !OccursAt(s, EscapedHost, i) then None
    else
      var d := RunEnd(s, i + 29, IsDigit);
      if d == i + 29 || !OccursAt(s, EscapedSlash, d) then None
      else
        match LazyMp3(s, d + 2, d + 3)
        case None => None
        case Some(e) => Some((d, e))
  }

  /** `body.match(...)`: the leftmost match of the song regex. */
  function FirstSongMatch(body: string): (r: Option<(nat, (nat, nat))>)
    ensures r.Some? ==> r.value.0 <= |body| && SongMatchAt(body, r.value.0) == Some(r.value.1)
    ensures r.Some? ==> forall j :: 0 <= j < r.value.0 ==> SongMatchAt(body, j).None?
    ensures r.None? ==> forall j :: 0 <= j <= |body| ==> SongMatchAt(body, j).None?
  {
    var at := i => SongMatchAt(body, i);
    assert forall j :: at(j) == SongMatchAt(body, j);
    Leftmost(|body|, 0, at)
  }

  /** `.replaceAll('\\/', '/')`: the JSON escape of `/` undone. */
  function Unescape(s: string): string {
    ReplaceAll(s, EscapedSlash, "/")
  }

  const NoSongUrl := "Failed to find song url"

  /** The matched text with every `\/` turned into `/`; the download throws when there is none. */
  function SongUrl(body: string): (r: Result<string>)
    ensures r.Throw? ==> r.message == NoSongUrl
  {
    match FirstSongMatch(body)
    case None => Throw(NoSongUrl)
    case Some((i, (d, e))) => Ok(MatchedUrl(body, i, e))
  }

  /** The text of a match from its start through `.mp3`, unescaped. */
  function MatchedUrl(body: string, i: nat, e: nat): string
    requires i <= e + 4 <= |body|
  {
    Unescape(body[i..e + 4])
  }

  /** The download throws exactly when the song regex matches nowhere in the page. */
  lemma SongUrlFails(body: string)
    ensures SongUrl(body).Throw? <==> forall i :: 0 <= i <= |body| ==> SongMatchAt(body, i).None?
  {
    if FirstSongMatch(body).Some? {
      var (i, _) := FirstSongMatch(body).value;
      assert SongMatchAt(body, i).Some?;
    }
  }

  const SongHost := "https://audio.ngfiles.com/"

  /**
   * The song URL is `https://audio.ngfiles.com/<digits>/<name>.mp3`: the
   * digits and name of the leftmost match, the name unescaped in turn.
   */
  lemma SongUrlShape(body: string, i: nat, d: nat, e: nat)
    requires FirstSongMatch(body) == Some((i, (d, e)))
    ensures SongUrl(body) == Ok(SongHost + (body[i + 29..d] + ("/" + (Unescape(body[d + 2..e]) + ".mp3"))))
    ensures body[i + 29..d] != "" && AllDigits(body[i + 29..d])
  {
    SongUrlOfMatch(body, i, d, e);
    UnescapedMatch(body, i, d, e, MatchedUrl(body, i, e));
  }

  lemma SongUrlOfMatch(body: string, i: nat, d: nat, e: nat)
    requires FirstSongMatch(body) == Some((i, (d, e)))
    ensures SongMatchAt(body, i) == Some((d, e)) && e + 4 <= |body|
    ensures SongUrl(body) == Ok(MatchedUrl(body, i, e))
  {
  }

  lemma UnescapedMatch(body: string, i: nat, d: nat, e: nat, u: string)
    requires SongMatchAt(body, i) == Some((d, e))
    requires u == Unescape(body[i..e + 4])
    ensures u == SongHost + (body[i + 29..d] + ("/" + (Unescape(body[d + 2..e]) + ".mp3")))
  {
    SliceInParts(body, EscapedHost, EscapedSlash, ".mp3", i, d, e);
    UnescapeSongUrl(body[i + 29..d], body[d + 2..e]);
  }

  /** So it begins with the plain host and ends in `.mp3`. */
  lemma SongUrlEnds(body: string)
    requires SongUrl(body).Ok?
    ensures StartsWith(SongUrl(body).value, SongHost) && EndsWith(SongUrl(body).value, ".mp3")
  {
    var (i, (d, e)) := FirstSongMatch(body).value;
    SongUrlShape(body, i, d, e);
    UrlEnds(body[i + 29..d], Unescape(body[d + 2..e]));
  }

  lemma UrlEnds(digits: string, name: string)
    ensures StartsWith(SongHost + (digits + ("/" + (name + ".mp3"))), SongHost)
    ensures EndsWith(SongHost + (digits + ("/" + (name + ".mp3"))), ".mp3")
  {
    var w := name + ".mp3";
    EndsWithConcat("/", w, ".mp3");
    EndsWithConcat(digits, "/" + w, ".mp3");
    EndsWithConcat(SongHost, digits + ("/" + w), ".mp3");
  }

  /** Unescaping the parts of a match one after another. */
  lemma UnescapeSongUrl(digits: string, name: string)
    requires AllDigits(digits)
    ensures Unescape(EscapedHost + (digits + (EscapedSlash + (name + ".mp3"))))
      == SongHost + (digits + ("/" + (Unescape(name) + ".mp3")))
  {
    var x := digits + (EscapedSlash + (name + ".mp3"));
    UnescapeAfterHost(digits, name);
    HostInParts(x);
    UnescapeAround("https:", "audio.ngfiles.com", x);
    PlainHostInParts(Unescape(x));
  }

  /** After the host: the digits stay, `\/` becomes `/`, and `.mp3` stays. */
  lemma UnescapeAfterHost(digits: string, name: string)
    requires AllDigits(digits)
    ensures Unescape(digits + (EscapedSlash + (name + ".mp3"))) == digits + ("/" + (Unescape(name) + ".mp3"))
  {
    var t0 := name + ".mp3";
    ReplaceAllConcatPair(name, ".mp3", EscapedSlash, "/");
    ReplaceAllPlain(".mp3", "", EscapedSlash, "/");
    assert ".mp3" + "" == ".mp3";
    ReplaceAllLead(EscapedSlash, t0, "/");
    assert '\\' !in digits by {
      forall k | 0 <= k < |digits|
        ensures digits[k] != '\\'
      {
        assert IsDigit(digits[k]);
      }
    }
    ReplaceAllPlain(digits, EscapedSlash + t0, EscapedSlash, "/");
  }

  lemma HostInParts(x: string)
    ensures EscapedHost + x == "https:" + (EscapedSlash + (EscapedSlash + ("audio.ngfiles.com" + (EscapedSlash + x))))
  {
  }

  lemma PlainHostInParts(x: string)
    ensures "https:" + ("/" + ("/" + ("audio.ngfiles.com" + ("/" + x)))) == SongHost + x
  {
  }

  /** `p\/\/q\/x` unescapes to `p//q/` and the unescaped `x`, when `p` and `q` hold no backslash. */
  lemma UnescapeAround(p: string, q: string, x: string)
    requires '\\' !in p && '\\' !in q
    ensures Unescape(p + (EscapedSlash + (EscapedSlash + (q + (EscapedSlash + x)))))
      == p + ("/" + ("/" + (q + ("/" + Unescape(x)))))
  {
    var e := EscapedSlash;
    ReplaceAllLead(e, x, "/");
    ReplaceAllPlain(q, e + x, e, "/");
    ReplaceAllLead(e, q + (e + x), "/");
    ReplaceAllLead(e, e + (q + (e + x)), "/");
    ReplaceAllPlain(p, e + (e + (q + (e + x))), e, "/");
  }

  // The author comments: /id="author_comments"\s*>\s*<p>([\S\s]+?)<\/p>/

  const AuthorComments := "id=\"author_comments\""

  /** The comments regex tried at `i`: the bounds of its group, up to the first `</p>` after one character. */
  function CommentsMatchAt(s: string, i: nat): (r: Option<(nat, nat)>)
    ensures r.Some? ==> r.value.0 < r.value.1 && OccursAt(s, "</p>", r.value.1)
    ensures r.Some? ==> forall x :: r.value.0 < x < r.value.1 ==> !OccursAt(s, "</p>", x)
  {
    if !OccursAt(s, AuthorComments, i) then None
    else
      var a := SkipSpaces(s, i + |AuthorComments|);
      if a >= |s| || s[a] != '>' then None
      else
        var b := SkipSpaces(s, a + 1);
        if !OccursAt(s, "<p>", b) then None
        else
          match IndexOf(s, "</p>", b + 4)
          case None => None
          case Some(e) => Some((b + 3, e))
  }

  function FirstCommentsMatch(body: string): (r: Option<(nat, (nat, nat))>)
    ensures r.Some? ==> r.value.0 <= |body| && CommentsMatchAt(body, r.value.0) == Some(r.value.1)
    ensures r.None? ==> forall j :: 0 <= j <= |body| ==> CommentsMatchAt(body, j).None?
  {
    var at := i => CommentsMatchAt(body, i);
    assert forall j :: at(j) == CommentsMatchAt(body, j);
    Leftmost(|body|, 0, at)
  }

  /** The captured comments, or `No comment provided`. */
  function SongComments(body: string): (r: string)
    ensures FirstCommentsMatch(body).None? ==> r == "No comment provided"
    ensures FirstCommentsMatch(body).Some? ==>
      var (a, b) := FirstCommentsMatch(body).value.1;
      a < b <= |body| && r == body[a..b]
  {
    match FirstCommentsMatch(body)
    case None => "No comment provided"
    case Some((_, (a, b))) => body[a..b]
  }

  // The title: /<div class="pod-head" itemprop="itemReviewed">\s*<h2 .+?>([\s\S]+?)<\/h2>/

  const PodHead := "<div class=\"pod-head\" itemprop=\"itemReviewed\">"

  /**
   * The title regex tried at `i`. The lazy `.+?` stops at the first `>`
   * after at least one character, and fails at a line break; a later `>`
   * cannot help, since the group must then reach a `</h2>` that is later still.
   */
  function TitleMatchAt(s: string, i: nat): (r: Option<(nat, nat)>)
    ensures r.Some? ==> r.value.0 < r.value.1 && OccursAt(s, "</h2>", r.value.1)
    ensures r.Some? ==> forall x :: r.value.0 < x < r.value.1 ==> !OccursAt(s, "</h2>", x)
  {
    if !OccursAt(s, PodHead, i) then None
    else
      var a := SkipSpaces(s, i + |PodHead|);
      if !OccursAt(s, "<h2 ", a) then None
      else
        var q := a + 4;
        match IndexOf(s, ">", q + 1)
        case None => None
        case Some(g) =>
          if !NoLineTerminator(s[q..g]) then None
          else
            match IndexOf(s, "</h2>", g + 2)
            case None => None
            case Some(e) => Some((g + 1, e))
  }

  function FirstTitleMatch(body: string): (r: Option<(nat, (nat, nat))>)
    ensures r.Some? ==> r.value.0 <= |body| && TitleMatchAt(body, r.value.0) == Some(r.value.1)
    ensures r.None? ==> forall j :: 0 <= j <= |body| ==> TitleMatchAt(body, j).None?
  {
    var at := i => TitleMatchAt(body, i);
    assert forall j :: at(j) == TitleMatchAt(body, j);
    Leftmost(|body|, 0, at)
  }

  /** The captured title, or `No title found`. */
  function SongTitle(body: string): (r: string)
    ensures FirstTitleMatch(body).None? ==> r == "No title found"
    ensures FirstTitleMatch(body).Some? ==>
      var (a, b) := FirstTitleMatch(body).value.1;
      a < b <= |body| && r == body[a..b]
  {
    match FirstTitleMatch(body)
    case None => "No title found"
    case Some((_, (a, b))) => body[a..b]
  }

  /** Everything the page shows that the model derives. */
  datatype Page = Page(title: string, audioSrc: string, comments: string)

  /**
   * `downloadNewgrounds` on the fetched page `body`: the song URL to fetch,
   * the files and the page; it throws before saving anything when the page
   * holds no song URL.
   */
  function DownloadNewgrounds(body: string, dest: string, id: string)
    : (r: Result<(string, AudioBackup.Files, Page)>)
    ensures r.Throw? <==> SongUrl(body).Throw?
    ensures r.Throw? ==> r.message == NoSongUrl
    ensures r.Ok? ==>
      var (song, files, page) := r.value;
      && song == SongUrl(body).value
      && page.audioSrc == files.audioSrc && files.audioPath == PathJoin(dest, page.audioSrc)
      && page.title == SongTitle(body) && page.comments == SongComments(body)
  {
    match SongUrl(body)
    case Throw(e) => Throw(e)
    case Ok(song) =>
      var files := AudioBackup.SavedFiles(dest, id);
      Ok((song, files, Page(SongTitle(body), files.audioSrc, SongComments(body))))
  }
}
