/**
 * src/commands/preview.js: `downloadPreview(url)` picks the user agent the
 * Open Graph scraper sends, and maps the scraper's answer to the preview
 * shown for a pin. The scraper itself is a parameter.
 */
module Preview {
  import opened Js
  import opened Text

  const ChromeAgent := "Mozilla/5.0 (Windows NT 10.0; Win64; x64) AppleWebKit/537.36 (KHTML, like Gecko) Chrome/112.0.0.0 Safari/537.36"
  const TwitterbotAgent := "Twitterbot/1.1"

  /**
   * `url.split('//')[1].startsWith('twitter.com') ? 'Twitterbot/1.1' : userAgent`.
   * Without a `//` the second piece is `undefined` and reading its
   * `startsWith` throws.
   */
  function UserAgent(url: string): (r: Result<string>)
    ensures r.Throw? <==> IndexOf(url, "//", 0).None?
    ensures r.Throw? ==> r.message == TypeErrorMessage
    ensures r.Ok? ==> r.value == TwitterbotAgent || r.value == ChromeAgent
    ensures r.Ok? ==>
      (r.value == TwitterbotAgent <==> StartsWith(url[IndexOf(url, "//", 0).value + 2..], "twitter.com"))
  {
    match Second(Split(url, "//"))
    case None =>
      assert IndexOf(url, "//", 0).None? by {
        SplitFirst(url, "//");
      }
      Throw(TypeErrorMessage)
    case Some(host) =>
      var i := IndexOf(url, "//", 0).value;
      assert host == Split(url[i + 2..], "//")[0];
      PieceStartsWith(url[i + 2..], "//", "twitter.com");
      if StartsWith(host, "twitter.com") then Ok(TwitterbotAgent) else Ok(ChromeAgent)
  }

  /**
   * The text before the first `sep` starts with `t` exactly when the whole
   * text does, when `t` holds no character of `sep`.
   */
  lemma PieceStartsWith(s: string, sep: string, t: string)
    requires sep != [] && sep[0] !in t
    ensures StartsWith(Split(s, sep)[0], t) <==> StartsWith(s, t)
  {
    SplitFirst(s, sep);
    match IndexOf(s, sep, 0)
    case None =>
    case Some(j) =>
      if j < |t| {
        assert s[j] == s[j..j + |sep|][0];
      } else {
        assert s[..j][..|t|] == s[..|t|];
      }
  }

  /** The fields of the scraper's `result` that the preview reads, as JavaScript values. */
  datatype OgResult = OgResult(ogTitle: Value, ogSiteName: Value, ogDescription: Value, ogImage: Value)

  /** What `ogs(options)` resolves to: its `error` flag and its `result`. */
  datatype OgData = OgData(error: Value, result: OgResult)

  /** The object `downloadPreview` returns. */
  datatype PinPreview =
    | PinPreview(title: Value, desc: Value, name: Value, image: Value)
    | ErrorPreview

  /** `v[0]` for a value that is not `undefined` or `null`. */
  function IndexZero(v: Value): Value {
    match v
    case Arr(items) => if |items| > 0 then items[0] else Undefined
    case Obj(fields) => Get(fields, "0")
    case Str(s) => if |s| > 0 then Str([s[0]]) else Undefined
    case _ => Undefined
  }

  /** `v?.url`: `undefined` for `undefined` and `null`, the property on an object. */
  function OptionalUrl(v: Value): Value {
    match v
    case Obj(fields) => Get(fields, "url")
    case _ => Undefined
  }

  /** `result.ogImage ? result.ogImage[0]?.url : ''`. */
  function ImageOf(ogImage: Value): (r: Value)
    ensures !Truthy(ogImage) ==> r == Str("")
    ensures forall fields, rest :: ogImage == Arr([Obj(fields)] + rest) ==> r == Get(fields, "url")
    ensures ogImage == Arr([]) ==> r == Undefined
  {
    if Truthy(ogImage) then OptionalUrl(IndexZero(ogImage)) else Str("")
  }

  /**
   * `downloadPreview(url)` when the scraper, asked with the chosen agent,
   * answers `scrape(agent)`.
   */
  function DownloadPreview(url: string, scrape: string -> OgData): (r: Result<PinPreview>)
    ensures UserAgent(url).Throw? ==> r == Throw(TypeErrorMessage)
    ensures UserAgent(url).Ok? ==> r.Ok?
    ensures r.Ok? ==> var data := scrape(UserAgent(url).value);
      (r.value.ErrorPreview? <==> Truthy(data.error))
    ensures r.Ok? && r.value.PinPreview? ==> var og := scrape(UserAgent(url).value).result;
      && (Truthy(og.ogTitle) ==> r.value.title == og.ogTitle)
      && (!Truthy(og.ogTitle) ==> r.value.title == og.ogSiteName)
      && (Truthy(og.ogDescription) ==> r.value.desc == og.ogDescription)
      && (!Truthy(og.ogDescription) ==> r.value.desc == Str("No description provided"))
      && r.value.name == og.ogSiteName
      && r.value.image == ImageOf(og.ogImage)
      && Truthy(r.value.desc)
  {
    match UserAgent(url)
    case Throw(e) => Throw(e)
    case Ok(agent) =>
      var data := scrape(agent);
      if !Truthy(data.error) then
        var og := data.result;
        Ok(PinPreview(Or(og.ogTitle, og.ogSiteName), Or(og.ogDescription, Str("No description provided")),
                      og.ogSiteName, ImageOf(og.ogImage)))
      else Ok(ErrorPreview)
  }

  /** Every `https://twitter.com/...` link is fetched as Twitter's own bot. */
  lemma TwitterLinksUseBotAgent(scheme: string, rest: string)
    requires '/' !in scheme
    ensures UserAgent(scheme + "//twitter.com" + rest) == Ok(TwitterbotAgent)
  {
    var url := scheme + "//twitter.com" + rest;
    assert OccursAt(url, "//", |scheme|);
    forall j | 0 <= j < |scheme|
      ensures !OccursAt(url, "//", j)
    {
      assert url[j] == scheme[j];
      if j + 2 <= |url| {
        assert url[j..j + 2][0] == url[j];
      }
    }
    assert url[|scheme| + 2..] == "twitter.com" + rest;
    assert ("twitter.com" + rest)[..11] == "twitter.com";
  }
}
