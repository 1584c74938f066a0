/**
 * src/commands/downloader/pixiv.js: the `isPixiv` classifier, and what
 * `downloadPixiv` decides around the browser: the URL it opens, which
 * requests it lets through, and the names and markup of the images it saves.
 */
module Pixiv {
  import opened Js
  import opened Text
  import opened FileNames

  /** The index where the path starts: after `https://www.pixiv.net/` or `https://pixiv.net/`. */
  function HostEnd(u: string): (r: Option<nat>)
    ensures r.Some? ==> r.value <= |u|
  {
    if StartsWith(u, "https://www.pixiv.net/") then Some(22)
    else if StartsWith(u, "https://pixiv.net/") then Some(18)
    else None
  }

  /**
   * `[a-z]+\/artworks\/\d+(#\d*)?$`: the letters stop at the first non-letter,
   * which must open `/artworks/`, and the digits stop at the end or at `#`.
   */
  predicate ArtworkPath(p: string) {
    var l := RunEnd(p, 0, IsLowerLetter);
    0 < l && OccursAt(p, "/artworks/", l)
    && var d := RunEnd(p, l + 10, IsDigit);
       l + 10 < d && (d == |p| || (p[d] == '#' && AllDigits(p[d + 1..])))
  }

  /** `isPixiv(url)`: after one trailing `/` is removed, a pixiv host and an artwork path. */
  predicate IsPixiv(url: string) {
    var u := DropTrailingSlash(url);
    match HostEnd(u)
    case None => false
    case Some(h) => ArtworkPath(u[h..])
  }

  /** Every artwork link passes, with either host, an optional `#<digits>`, and an optional trailing `/`. */
  lemma ArtworkUrlPasses(host: string, lang: string, digits: string, fragment: string, tail: string)
    requires host == "https://www.pixiv.net/" || host == "https://pixiv.net/"
    requires lang != "" && forall j :: 0 <= j < |lang| ==> IsLowerLetter(lang[j])
    requires digits != "" && AllDigits(digits)
    requires fragment == "" || (fragment[0] == '#' && AllDigits(fragment[1..]))
    requires tail == "" || tail == "/"
    ensures IsPixiv(host + (lang + "/artworks/" + digits + fragment) + tail)
  {
    ArtworkPathPasses(lang, digits, fragment);
    HostPathPasses(host, lang + "/artworks/" + digits + fragment, tail);
  }

  /** A recognised host, then an artwork path not ending in `/`, then at most one `/`. */
  lemma HostPathPasses(host: string, p: string, tail: string)
    requires host == "https://www.pixiv.net/" || host == "https://pixiv.net/"
    requires ArtworkPath(p) && p[|p| - 1] != '/'
    requires tail == "" || tail == "/"
    ensures IsPixiv(host + p + tail)
  {
    var u := host + p;
    assert u[|u| - 1] == p[|p| - 1];
    DropSlashOf(u, tail);
    HostEndOfHost(host, p);
    assert u[|host|..] == p;
  }

  /** Dropping the one trailing `/` added to a text that does not end in `/` gives the text back. */
  lemma DropSlashOf(u: string, tail: string)
    requires u != [] && u[|u| - 1] != '/'
    requires tail == "" || tail == "/"
    ensures DropTrailingSlash(u + tail) == u
  {
    if tail == "/" {
      assert (u + tail)[..|u|] == u;
    } else {
      assert u + tail == u;
    }
  }

  /** Either accepted host is recognised in front of any path. */
  lemma HostEndOfHost(host: string, p: string)
    requires host == "https://www.pixiv.net/" || host == "https://pixiv.net/"
    ensures HostEnd(host + p) == Some(|host|)
  {
    var u := host + p;
    assert u[..|host|] == host;
    if host == "https://pixiv.net/" {
      PrefixesDiffer(u, "https://pixiv.net/", "https://www.pixiv.net/", 8);
    }
  }

  /** The path part of every artwork link passes. */
  lemma ArtworkPathPasses(lang: string, digits: string, fragment: string)
    requires lang != "" && forall j :: 0 <= j < |lang| ==> IsLowerLetter(lang[j])
    requires digits != "" && AllDigits(digits)
    requires fragment == "" || (fragment[0] == '#' && AllDigits(fragment[1..]))
    ensures ArtworkPath(lang + "/artworks/" + digits + fragment)
    ensures var p := lang + "/artworks/" + digits + fragment; p[|p| - 1] != '/'
  {
    var p := lang + "/artworks/" + digits + fragment;
    LetterRun(lang, digits, fragment);
    ArtworksAfterLetters(lang, digits, fragment);
    DigitRun(lang, digits, fragment);
    var d := |lang| + 10 + |digits|;
    if fragment != "" {
      assert p[d..] == fragment;
      assert p[|p| - 1] == fragment[|fragment| - 1];
    } else {
      assert p[|p| - 1] == digits[|digits| - 1];
    }
  }

  /** The letters of an artwork path end at its `/`. */
  lemma LetterRun(lang: string, digits: string, fragment: string)
    requires forall j :: 0 <= j < |lang| ==> IsLowerLetter(lang[j])
    ensures RunEnd(lang + "/artworks/" + digits + fragment, 0, IsLowerLetter) == |lang|
  {
    var p := lang + "/artworks/" + digits + fragment;
    var rest := "/artworks/" + digits + fragment;
    assert p == [] + lang + rest;
    RunOver([], lang, rest, IsLowerLetter);
  }

  /** `/artworks/` follows the letters. */
  lemma ArtworksAfterLetters(lang: string, digits: string, fragment: string)
    ensures OccursAt(lang + "/artworks/" + digits + fragment, "/artworks/", |lang|)
  {
    var p := lang + "/artworks/" + digits + fragment;
    assert p[|lang|..|lang| + 10] == "/artworks/";
  }

  /** The digits end at the fragment or at the end. */
  lemma DigitRun(lang: string, digits: string, fragment: string)
    requires AllDigits(digits)
    requires fragment == "" || fragment[0] == '#'
    ensures RunEnd(lang + "/artworks/" + digits + fragment, |lang| + 10, IsDigit) == |lang| + 10 + |digits|
  {
    RunOver(lang + "/artworks/", digits, fragment, IsDigit);
  }

  /** A run that starts after `pre` covers exactly `a` when the character after `a` fails. */
  lemma RunOver(pre: string, a: string, b: string, ok: char -> bool)
    requires forall j :: 0 <= j < |a| ==> ok(a[j])
    requires b == [] || !ok(b[0])
    ensures RunEnd(pre + a + b, |pre|, ok) == |pre| + |a|
  {
    var s := pre + a + b;
    forall j | |pre| <= j < |pre| + |a|
      ensures ok(s[j])
    {
      assert s[j] == a[j - |pre|];
    }
    if b != [] {
      assert s[|pre| + |a|] == b[0];
    }
    RunEndFrom(s, |pre|, |pre| + |a|, ok);
  }

  /** A run whose characters all pass and whose next character fails ends where that character is. */
  lemma {:induction false} RunEndFrom(s: string, from: nat, end: nat, ok: char -> bool)
    requires from <= end <= |s|
    requires forall j :: from <= j < end ==> ok(s[j])
    requires end == |s| || !ok(s[end])
    ensures RunEnd(s, from, ok) == end
    decreases end - from
  {
    if from < end {
      RunEndFrom(s, from + 1, end, ok);
    }
  }

  /** `url.split('#')[0]`: the URL the browser opens, without its fragment. */
  function PageUrl(url: string): (r: string)
    ensures StartsWith(url, r) && '#' !in r
    ensures '#' !in url ==> r == url
  {
    var r := Split(url, "#")[0];
    SplitPartsExcludeSep(url, "#", 0);
    NotIncludesChar(r, '#');
    SplitFirst(url, "#");
    assert '#' !in url ==> r == url by {
      if '#' !in url {
        CharNotFound(url, '#');
      }
    }
    r
  }

  /** An artwork link stays one once its fragment is dropped. */
  lemma PageUrlOfArtwork(url: string)
    requires IsPixiv(url)
    ensures IsPixiv(PageUrl(url))
  {
    var u := DropTrailingSlash(url);
    var h := HostEnd(u).value;
    var p := u[h..];
    var l := RunEnd(p, 0, IsLowerLetter);
    var d := RunEnd(p, l + 10, IsDigit);
    NoHashBeforeFragment(u, h, l, d);
    if d == |p| {
      assert u[..h + d] == u;
      NoHashKept(url);
    } else {
      FragmentCut(url, u, h, l, d);
    }
  }

  /** With a fragment, the URL opened is the link cut after its digits, which passes. */
  lemma FragmentCut(url: string, u: string, h: nat, l: nat, d: nat)
    requires u == DropTrailingSlash(url) && HostEnd(u) == Some(h) && ArtworkPath(u[h..])
    requires l == RunEnd(u[h..], 0, IsLowerLetter) && d == RunEnd(u[h..], l + 10, IsDigit)
    requires d < |u[h..]| && '#' !in u[..h + d]
    ensures IsPixiv(PageUrl(url))
  {
    assert u[h + d] == u[h..][d];
    HeadBeforeHash(url, u, h + d);
    CutAfterDigits(u, h, l, d);
  }

  /** Without a `#` before its trailing `/`, the URL is opened as it is. */
  lemma NoHashKept(url: string)
    requires '#' !in DropTrailingSlash(url)
    ensures PageUrl(url) == url
  {
    if EndsWith(url, "/") {
      assert url == DropTrailingSlash(url) + "/";
    }
  }

  /** The first `#` ends the URL that is opened. */
  lemma HeadBeforeHash(url: string, u: string, n: nat)
    requires u == DropTrailingSlash(url) && n < |u| && u[n] == '#' && '#' !in u[..n]
    ensures PageUrl(url) == u[..n]
  {
    assert url == u[..n] + ['#'] + url[n + 1..] by {
      assert url[..|u|] == u;
    }
    FirstCharAfter(u[..n], '#', url[n + 1..]);
  }

  /** An artwork link cut right after its digits still passes. */
  lemma CutAfterDigits(u: string, h: nat, l: nat, d: nat)
    requires HostEnd(u) == Some(h) && ArtworkPath(u[h..])
    requires l == RunEnd(u[h..], 0, IsLowerLetter) && d == RunEnd(u[h..], l + 10, IsDigit)
    ensures IsPixiv(u[..h + d])
  {
    var p := u[h..];
    var head := u[..h + d];
    assert head[|head| - 1] == p[d - 1];
    HostEndPrefix(u, h, h + d);
    assert head[h..] == p[..d];
    ArtworkPathCut(p, l, d);
    IsPixivFrom(head, h);
  }

  /** A text with no trailing `/`, a recognised host and an artwork path after it passes. */
  lemma IsPixivFrom(v: string, h: nat)
    requires v != [] && v[|v| - 1] != '/'
    requires HostEnd(v) == Some(h) && ArtworkPath(v[h..])
    ensures IsPixiv(v)
  {
    assert DropTrailingSlash(v) == v;
  }

  /** An artwork path cut right after its digits is still one. */
  lemma ArtworkPathCut(p: string, l: nat, d: nat)
    requires ArtworkPath(p)
    requires l == RunEnd(p, 0, IsLowerLetter) && d == RunEnd(p, l + 10, IsDigit)
    ensures ArtworkPath(p[..d])
  {
    RunEndPrefix(p, d, 0, IsLowerLetter);
    RunEndPrefix(p, d, l + 10, IsDigit);
    assert p[..d][l..l + 10] == p[l..l + 10];
  }

  /** Cutting a link after its host leaves the host recognised. */
  lemma HostEndPrefix(u: string, h: nat, n: nat)
    requires HostEnd(u) == Some(h) && h <= n <= |u|
    ensures HostEnd(u[..n]) == Some(h)
  {
    if 22 <= n {
      assert u[..n][..22] == u[..22];
    }
    assert u[..n][..18] == u[..18];
  }

  /** Up to the end of the digits, an artwork link holds no `#`. */
  lemma NoHashBeforeFragment(u: string, h: nat, l: nat, d: nat)
    requires HostEnd(u) == Some(h)
    requires l == RunEnd(u[h..], 0, IsLowerLetter) && OccursAt(u[h..], "/artworks/", l)
    requires d == RunEnd(u[h..], l + 10, IsDigit)
    ensures '#' !in u[..h + d]
  {
    var p := u[h..];
    var pre := u[..h + d];
    HostHasNoHash(u, h);
    PathHeadHasNoHash(p, l, d);
    forall j | 0 <= j < |pre|
      ensures pre[j] != '#'
    {
      if j >= h {
        assert pre[j] == p[j - h];
      }
    }
  }

  /** Neither host holds a `#`. */
  lemma HostHasNoHash(u: string, h: nat)
    requires HostEnd(u) == Some(h)
    ensures forall j :: 0 <= j < h ==> u[j] != '#'
  {
    var host := u[..h];
    assert host == "https://www.pixiv.net/" || host == "https://pixiv.net/";
    assert '#' !in host;
    forall j | 0 <= j < h
      ensures u[j] != '#'
    {
      assert u[j] == host[j];
    }
  }

  /** The letters, `/artworks/` and the digits hold no `#`. */
  lemma PathHeadHasNoHash(p: string, l: nat, d: nat)
    requires l == RunEnd(p, 0, IsLowerLetter) && OccursAt(p, "/artworks/", l)
    requires d == RunEnd(p, l + 10, IsDigit)
    ensures forall j :: 0 <= j < d ==> p[j] != '#'
  {
    forall j | 0 <= j < d
      ensures p[j] != '#'
    {
      if j < l {
        assert IsLowerLetter(p[j]);
      } else if j < l + 10 {
        assert p[j] == p[l..l + 10][j - l];
        assert '#' !in "/artworks/";
      } else {
        assert IsDigit(p[j]);
      }
    }
  }

  /** What the request handler does with a request. */
  datatype RequestAction = Abort | Continue

  /** `req.resourceType() === 'font' ? req.abort() : req.continue()`. */
  function FilterRequest(resourceType: string): (r: RequestAction)
    ensures r == Abort <==> resourceType == "font"
  {
    if resourceType == "font" then Abort else Continue
  }

  /** The file of the `i`-th image: `<id>-<i>.<last '.'-segment of its source>`. */
  function ImageName(id: string, i: nat, src: string): string {
    IndexedName(id + "-", i, LastPart(src, "."))
  }

  /** The `for (let src of result.src)` loop: one name per source, counting from 0. */
  method NameImages(id: string, srcs: seq<string>) returns (images: seq<string>)
    ensures |images| == |srcs|
    ensures forall i :: 0 <= i < |srcs| ==> images[i] == ImageName(id, i, srcs[i])
  {
    images := [];
    var i := 0;
    while i < |srcs|
      invariant 0 <= i <= |srcs| && |images| == i
      invariant forall j :: 0 <= j < i ==> images[j] == ImageName(id, j, srcs[j])
    {
      var imageName := IndexedName(id + "-", i, LastPart(srcs[i], "."));
      images := images + [imageName];
      i := i + 1;
    }
  }

  /** No two images are saved under the same name. */
  lemma ImageNamesDistinct(id: string, srcs: seq<string>, i: nat, j: nat)
    requires i < j < |srcs|
    ensures ImageName(id, i, srcs[i]) != ImageName(id, j, srcs[j])
  {
    if ImageName(id, i, srcs[i]) == ImageName(id, j, srcs[j]) {
      IndexedNamesDistinct(id + "-", i, j, LastPart(srcs[i], "."), LastPart(srcs[j], "."));
    }
  }

  function PixivImgTag(name: string): string {
    "<img src=\"" + name + "\" alt=\"Pixiv art\">"
  }

  /** The tags as `${images.map(...)}` prints them: the array's elements joined with `,`. */
  function ImagesHtml(images: seq<string>): string {
    Join(seq(|images|, i requires 0 <= i < |images| => PixivImgTag(images[i])), ",")
  }

  /** Splitting that markup at `,` gives one tag per image back, when no image name holds a `,`. */
  lemma ImagesHtmlSplits(images: seq<string>)
    requires |images| >= 1 && forall i :: 0 <= i < |images| ==> ',' !in images[i]
    ensures var tags := Split(ImagesHtml(images), ",");
      |tags| == |images| && forall i :: 0 <= i < |images| ==> tags[i] == PixivImgTag(images[i])
  {
    var tags := seq(|images|, i requires 0 <= i < |images| => PixivImgTag(images[i]));
    forall k | 0 <= k < |tags|
      ensures ',' !in tags[k]
    {
      var n := images[k];
      forall j | 0 <= j < |tags[k]|
        ensures tags[k][j] != ','
      {
        if j < 10 {
          assert tags[k][j] == "<img src=\""[j];
        } else if j < 10 + |n| {
          assert tags[k][j] == n[j - 10];
        } else {
          assert tags[k][j] == "\" alt=\"Pixiv art\">"[j - 10 - |n|];
        }
      }
    }
    SplitJoinChar(tags, ',');
  }

  /** What the page script reports: image sources, title, description, tags and artist. */
  datatype Scrape = Scrape(srcs: seq<string>, title: string, desc: string, tags: string, artist: string, artistUrl: string)

  /** What the pixiv page shows that the model derives, and the file it is written to. */
  datatype PixivPage = PixivPage(file: string, images: seq<string>, imagesHtml: string, title: string, desc: string)

  /**
   * `downloadPixiv(url, dest, id)` once the page script has answered with
   * `scrape`: the URL it opens, and the page.
   */
  method DownloadPixiv(url: string, dest: string, id: string, scrape: Scrape) returns (target: string, page: PixivPage)
    ensures target == PageUrl(url) && '#' !in target
    ensures |page.images| == |scrape.srcs|
    ensures forall i :: 0 <= i < |scrape.srcs| ==> page.images[i] == ImageName(id, i, scrape.srcs[i])
    ensures page.imagesHtml == ImagesHtml(page.images) && page.file == PathJoin(dest, id + ".html")
    ensures '\n' !in page.desc
    ensures '<' !in scrape.desc ==> BrToNewlines(page.desc) == scrape.desc
  {
    target := PageUrl(url);
    var images := NameImages(id, scrape.srcs);
    if '<' !in scrape.desc {
      NewlinesToBrInverts(scrape.desc);
    }
    page := PixivPage(PathJoin(dest, id + ".html"), images, ImagesHtml(images), scrape.title, NewlinesToBr(scrape.desc));
  }
}
