/**
 * src/util/twitter.js, `getTwitterMedia`: how its first argument becomes
 * the request's input, how the tweet URL is rewritten for the vxtwitter API,
 * and how the API's answer becomes the result, with the optional buffer
 * loop over its media.
 */
module TwitterApi {
  import opened Js
  import opened Text

  /** The object the function fills in: the caller's own object when it was given one. */
  class InputObject {
    var props: map<string, Value>

    constructor (props: map<string, Value>)
      ensures this.props == props
    {
      this.props := props;
    }
  }

  /** The first argument, by what `typeof` makes of it (`null` is an `object` too). */
  datatype Argument = ObjectArg(obj: InputObject) | NullArg | StringArg(s: string) | OtherArg

  /** A media entry of the result: `{url, type}`, and `buffer` once the loop has fetched it. */
  datatype MediaRef = MediaRef(url: Value, kind: Value, buffer: Option<Value>)

  /** The resolved result: `{found: false, error}` or `{found: true, media, ...}`; `text` only when asked for. */
  datatype Outcome =
    | NotFound(error: string)
    | Found(media: seq<MediaRef>, date: Value, likes: Value, replies: Value, retweets: Value,
            authorName: Value, authorUsername: Value, text: Option<Value>)

  /**
   * `Object.keys(options).forEach(key => input[key] = options[key])`, with
   * `keys` the options' keys in enumeration order: every option overrides.
   */
  method CopyOptions(input: InputObject, options: map<string, Value>, keys: seq<string>)
    requires forall k :: k in options <==> k in keys
    modifies input
    ensures input.props == old(input.props) + options
  {
    ghost var done: set<string> := {};
    var i := 0;
    while i < |keys|
      invariant 0 <= i <= |keys|
      invariant forall j :: 0 <= j < i ==> keys[j] in done
      invariant done <= options.Keys
      invariant input.props == old(input.props) + Restrict(options, done)
    {
      OverrideStep(old(input.props), options, done, keys[i]);
      input.props := input.props[keys[i] := options[keys[i]]];
      done := done + {keys[i]};
      i := i + 1;
    }
    RestrictAll(options, done, keys);
  }

  /** The options among `done`, with their values. */
  function Restrict(options: map<string, Value>, done: set<string>): (r: map<string, Value>)
    ensures r.Keys == options.Keys * done
    ensures forall k :: k in r ==> r[k] == options[k]
  {
    map k | k in options && k in done :: options[k]
  }

  /** Writing one more option is overriding with one more key. */
  lemma OverrideStep(base: map<string, Value>, options: map<string, Value>, done: set<string>, k: string)
    requires k in options
    ensures (base + Restrict(options, done))[k := options[k]] == base + Restrict(options, done + {k})
  {
  }

  /** Once every key has been written, all the options have. */
  lemma RestrictAll(options: map<string, Value>, done: set<string>, keys: seq<string>)
    requires forall k :: k in options <==> k in keys
    requires forall j :: 0 <= j < |keys| ==> keys[j] in done
    requires done <= options.Keys
    ensures Restrict(options, done) == options
  {
    assert done == options.Keys;
  }

  /** `/\/\/twitter.com/.test(text)`: `//twitter`, any character but a line break, then `com`, anywhere. */
  predicate MentionsTwitter(text: string) {
    exists i | 0 <= i < |text| :: OccursAt(text, "//twitter", i) && i + 13 <= |text|
      && !IsLineTerminator(text[i + 9]) && text[i + 10..i + 13] == "com"
  }

  /** A literal `//twitter.com` anywhere passes the test. */
  lemma LiteralHostMentions(text: string, i: nat)
    requires OccursAt(text, "//twitter.com", i)
    ensures MentionsTwitter(text)
  {
    assert text[i..i + 9] == text[i..i + 13][..9];
    assert text[i + 9] == text[i..i + 13][9];
    assert text[i + 10..i + 13] == text[i..i + 13][10..];
    assert OccursAt(text, "//twitter", i) && i + 13 <= |text|
      && !IsLineTerminator(text[i + 9]) && text[i + 10..i + 13] == "com";
  }

  /** `input.url.replace('//twitter.com', '//api.vxtwitter.com')`: the first literal host only. */
  function ApiUrl(url: string): string {
    ReplaceFirst(url, "//twitter.com", "//api.vxtwitter.com")
  }

  /** When no `/` comes before it, the host after the scheme is the one rewritten. */
  lemma ApiUrlRewritesHost(scheme: string, rest: string)
    requires '/' !in scheme
    ensures ApiUrl(scheme + "//twitter.com" + rest) == scheme + "//api.vxtwitter.com" + rest
  {
    ReplaceFirstAfter(scheme, "//twitter.com", "//api.vxtwitter.com", rest);
  }

  /** What the failed request's `catch` answers with. */
  const FailureBody: Value :=
    Obj(map["found" := Bool(false), "error" := Str("An issue occurred. Make sure the twitter link is valid.")])

  /** `x => ({url: x.url, type: x.type})` on an entry that is not `null` or `undefined`. */
  function EntryRef(x: Value): (r: MediaRef)
    requires !x.Undefined? && !x.Null?
    ensures r.buffer.None?
    ensures x.Obj? ==> r.url == Get(x.fields, "url") && r.kind == Get(x.fields, "type")
    ensures !x.Obj? ==> r.url == Undefined && r.kind == Undefined
  {
    match x
    case Obj(fields) => MediaRef(Get(fields, "url"), Get(fields, "type"), None)
    case _ => MediaRef(Undefined, Undefined, None)
  }

  /** `media_extended.map(...)`: a `TypeError` on a `null` or `undefined` entry. */
  function MediaRefs(items: seq<Value>): (r: Result<seq<MediaRef>>)
    ensures r.Ok? <==> forall i :: 0 <= i < |items| ==> !items[i].Undefined? && !items[i].Null?
    ensures r.Throw? ==> r.message == TypeErrorMessage
    ensures r.Ok? ==> |r.value| == |items| && forall i :: 0 <= i < |items| ==> r.value[i] == EntryRef(items[i])
  {
    if exists i :: 0 <= i < |items| && (items[i].Undefined? || items[i].Null?) then Throw(TypeErrorMessage)
    else Ok(seq(|items|, i requires 0 <= i < |items| => EntryRef(items[i])))
  }

  /**
   * The answer's body mapped to the result: `No media found` when it has no
   * truthy `media_extended`; a `TypeError` when that is not an array or the
   * body itself is `null` or `undefined`.
   */
  function MapResponse(body: Value, withText: bool): (r: Result<Outcome>)
    ensures (body.Undefined? || body.Null?) ==> r == Throw(TypeErrorMessage)
    ensures !body.Obj? && !body.Undefined? && !body.Null? ==> r == Ok(NotFound("No media found"))
    ensures body.Obj? && !Truthy(Get(body.fields, "media_extended")) ==> r == Ok(NotFound("No media found"))
    ensures r.Ok? && r.value.Found? ==>
      && body.Obj? && Get(body.fields, "media_extended").Arr?
      && MediaRefs(Get(body.fields, "media_extended").items) == Ok(r.value.media)
      && r.value.authorName == Get(body.fields, "user_name")
      && r.value.authorUsername == Get(body.fields, "user_screen_name")
      && (r.value.text.Some? <==> withText)
      && (withText ==> r.value.text == Some(Get(body.fields, "text")))
    ensures (body.Obj? && Get(body.fields, "media_extended").Arr?
             && MediaRefs(Get(body.fields, "media_extended").items).Ok?) ==> r.Ok? && r.value.Found?
  {
    match body
    case Undefined => Throw(TypeErrorMessage)
    case Null => Throw(TypeErrorMessage)
    case Obj(f) =>
      var extended := Get(f, "media_extended");
      if !Truthy(extended) then Ok(NotFound("No media found"))
      else if !extended.Arr? then Throw(TypeErrorMessage)
      else
        (match MediaRefs(extended.items)
         case Throw(e) => Throw(e)
         case Ok(media) =>
           Ok(Found(media, Get(f, "date"), Get(f, "likes"), Get(f, "replies"), Get(f, "retweets"),
                    Get(f, "user_name"), Get(f, "user_screen_name"),
                    if withText then Some(Get(f, "text")) else None)))
    case _ => Ok(NotFound("No media found"))
  }

  /** A failed request always ends as `No media found`. */
  lemma FailedRequestFindsNothing(withText: bool)
    ensures MapResponse(FailureBody, withText) == Ok(NotFound("No media found"))
  {
    assert "media_extended" !in FailureBody.fields;
  }

  /** Each media entry with `buffer` set to what fetching its URL gave (`undefined` on failure). */
  function WithBuffers(media: seq<MediaRef>, fetchBuffer: Value -> Value): (r: seq<MediaRef>)
    ensures |r| == |media|
    ensures forall i :: 0 <= i < |media| ==>
      r[i].url == media[i].url && r[i].kind == media[i].kind && r[i].buffer == Some(fetchBuffer(media[i].url))
  {
    seq(|media|, i requires 0 <= i < |media| => media[i].(buffer := Some(fetchBuffer(media[i].url))))
  }

  /** The `for (let media of output.media)` loop, one fetch per entry in order. */
  method FetchBuffers(media: seq<MediaRef>, fetchBuffer: Value -> Value) returns (out: seq<MediaRef>)
    ensures out == WithBuffers(media, fetchBuffer)
  {
    out := media;
    var i := 0;
    while i < |out|
      invariant 0 <= i <= |out| == |media|
      invariant forall j :: 0 <= j < i ==> out[j] == media[j].(buffer := Some(fetchBuffer(media[j].url)))
      invariant forall j :: i <= j < |out| ==> out[j] == media[j]
    {
      out := out[i := out[i].(buffer := Some(fetchBuffer(out[i].url)))];
      i := i + 1;
    }
  }

  /**
   * Everything after the input is settled: the URL test, the request to the
   * rewritten URL (`fetch` answers `None` when it fails), the mapping, and
   * the buffers when `input.buffer` is truthy.
   */
  function Answer(input: map<string, Value>, fetch: string -> Option<Value>, fetchBuffer: Value -> Value)
    : (r: Result<Outcome>)
    ensures !MentionsTwitter(ValueText(Get(input, "url"))) ==>
      r == Ok(NotFound("Invalid URL: " + ValueText(Get(input, "url"))))
    ensures (MentionsTwitter(ValueText(Get(input, "url"))) && Get(input, "url").Str?
             && fetch(ApiUrl(Get(input, "url").s)).None?) ==> r == Ok(NotFound("No media found"))
    ensures r.Ok? && r.value.Found? ==>
      && Get(input, "url").Str?
      && fetch(ApiUrl(Get(input, "url").s)).Some?
      && (r.value.text.Some? <==> Truthy(Get(input, "text")))
      && (Truthy(Get(input, "buffer")) ==> forall i :: 0 <= i < |r.value.media| ==> r.value.media[i].buffer.Some?)
      && (!Truthy(Get(input, "buffer")) ==> forall i :: 0 <= i < |r.value.media| ==> r.value.media[i].buffer.None?)
  {
    var url := Get(input, "url");
    var text := ValueText(url);
    if !MentionsTwitter(text) then Ok(NotFound("Invalid URL: " + text))
    else if !url.Str? then Throw(TypeErrorMessage)
    else
      var body := match fetch(ApiUrl(url.s)) case None => FailureBody case Some(d) => d;
      assert fetch(ApiUrl(url.s)).None? ==> MapResponse(body, Truthy(Get(input, "text"))) == Ok(NotFound("No media found"))
      by {
        FailedRequestFindsNothing(Truthy(Get(input, "text")));
      }
      match MapResponse(body, Truthy(Get(input, "text")))
      case Throw(e) => Throw(e)
      case Ok(NotFound(e)) => Ok(NotFound(e))
      case Ok(found) =>
        if Truthy(Get(input, "buffer")) then Ok(found.(media := WithBuffers(found.media, fetchBuffer)))
        else Ok(found)
  }

  /**
   * `getTwitterMedia(url, options)`, with `options` absent as `None` and
   * `keys` its keys in order. An object argument is used in place: a truthy
   * `url` is required, and the options are written into the caller's object.
   */
  method GetTwitterMedia(arg: Argument, options: Option<map<string, Value>>, keys: seq<string>,
                         fetch: string -> Option<Value>, fetchBuffer: Value -> Value)
    returns (r: Result<Outcome>)
    requires options.Some? ==> forall k :: k in options.value <==> k in keys
    modifies if arg.ObjectArg? then {arg.obj} else {}
    ensures arg.NullArg? ==> r == Throw(TypeErrorMessage)
    ensures arg.OtherArg? ==> r == Ok(NotFound("Invalid first argument"))
    ensures arg.ObjectArg? && !Truthy(Get(old(arg.obj.props), "url")) ==>
      r == Ok(NotFound("No URL provided")) && arg.obj.props == old(arg.obj.props)
    ensures arg.ObjectArg? && Truthy(Get(old(arg.obj.props), "url")) ==>
      arg.obj.props == old(arg.obj.props) + Overrides(options)
      && r == Answer(arg.obj.props, fetch, fetchBuffer)
    ensures arg.StringArg? ==> r == Answer(map["url" := Str(arg.s)] + Overrides(options), fetch, fetchBuffer)
  {
    var input: InputObject;
    match arg {
      case NullArg => return Throw(TypeErrorMessage);
      case OtherArg => return Ok(NotFound("Invalid first argument"));
      case ObjectArg(obj) =>
        if !Truthy(Get(obj.props, "url")) {
          return Ok(NotFound("No URL provided"));
        }
        input := obj;
      case StringArg(s) =>
        input := new InputObject(map[]);
        input.props := input.props["url" := Str(s)];
    }
    if options.Some? {
      CopyOptions(input, options.value, keys);
    }
    var url := Get(input.props, "url");
    var text := ValueText(url);
    if !MentionsTwitter(text) {
      return Ok(NotFound("Invalid URL: " + text));
    }
    if !url.Str? {
      return Throw(TypeErrorMessage);
    }
    var body := match fetch(ApiUrl(url.s)) case None => FailureBody case Some(d) => d;
    var result := MapResponse(body, Truthy(Get(input.props, "text")));
    if result.Throw? || result.value.NotFound? {
      return result;
    }
    var output := result.value;
    if Truthy(Get(input.props, "buffer")) {
      var media := FetchBuffers(output.media, fetchBuffer);
      output := output.(media := media);
    }
    return Ok(output);
  }

  /** The options written onto the input: none when they are absent. */
  function Overrides(options: Option<map<string, Value>>): map<string, Value> {
    if options.Some? then options.value else map[]
  }
}
