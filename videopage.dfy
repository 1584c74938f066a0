/**
 * The derivation that src/commands/downloader/youtube.js and
 * src/commands/downloader/bilibili.js share when they render a saved
 * video: the `<source>` element, one `<track>` per subtitle file, and the
 * tag line. The metadata array comes from `addVideoMetaToDb`: its last two
 * entries are the video file and the subtitle files.
 */
module VideoPage {
  import opened Js
  import opened Text
  import Ytdlp

  const VideosPath := "/files/videos/"

  /** `/files/videos/<key>/<file>`. */
  function FileSrc(key: string, file: string): string {
    VideosPath + key + "/" + file
  }

  /** `video/<last '.'-segment of the file>`. */
  function SourceType(file: string): (r: string)
    ensures StartsWith(r, "video/") && !Includes(r[6..], ".")
    ensures EndsWith(file, r[6..])
  {
    LastPartIsSuffix(file, ".");
    "video/" + LastPart(file, ".")
  }

  /** One `<track kind="subtitles">` element. */
  datatype Track = Track(labelText: string, srclang: string, src: string, isDefault: bool)

  /**
   * The track for subtitle file `sub` at position `i`: `sub.split('.')[1]`
   * is `undefined` for a name without `.`, and `.toUpperCase()` on it throws.
   */
  function TrackFor(key: string, sub: string, i: nat): (r: Result<Track>)
    ensures r.Ok? <==> |Split(sub, ".")| >= 2
    ensures r.Ok? ==>
      && r.value.labelText == ToUpper(r.value.srclang)
      && r.value.srclang == Split(sub, ".")[1]
      && r.value.src == FileSrc(key, sub)
      && (r.value.isDefault <==> i == 0)
  {
    match Second(Split(sub, "."))
    case None => Throw(TypeErrorMessage)
    case Some(lang) => Ok(Track(ToUpper(lang), lang, FileSrc(key, sub), i == 0))
  }

  /** `subs.map((sub, i) => ...)` from position `start` on; the first throw ends it. */
  function TracksFrom(key: string, subs: seq<string>, start: nat): (r: Result<seq<Track>>)
    decreases |subs|
    ensures r.Ok? <==> forall j :: 0 <= j < |subs| ==> |Split(subs[j], ".")| >= 2
    ensures r.Ok? ==>
      && |r.value| == |subs|
      && forall j :: 0 <= j < |subs| ==> Ok(r.value[j]) == TrackFor(key, subs[j], start + j)
  {
    if subs == [] then Ok([])
    else
      match TrackFor(key, subs[0], start)
      case Throw(e) => Throw(e)
      case Ok(t) =>
        match TracksFrom(key, subs[1..], start + 1)
        case Throw(e) => Throw(e)
        case Ok(ts) =>
          assert forall j :: 1 <= j < |subs| ==> subs[1..][j - 1] == subs[j];
          Ok([t] + ts)
  }

  function Tracks(key: string, subs: seq<string>): Result<seq<Track>> {
    TracksFrom(key, subs, 0)
  }

  /** Only the first track is the default one, and every track points into the video's folder. */
  lemma TracksShape(key: string, subs: seq<string>)
    requires Tracks(key, subs).Ok?
    ensures var ts := Tracks(key, subs).value;
      (forall j :: 0 <= j < |ts| ==> (ts[j].isDefault <==> j == 0))
      && (forall j :: 0 <= j < |ts| ==> ts[j].src == FileSrc(key, subs[j]) && ts[j].labelText == ToUpper(ts[j].srclang))
  {
  }

  /** A name that starts with `subs.` splits at `.` into `subs` and at least one more piece. */
  lemma {:induction false} SubsNameSplits(sub: string)
    requires StartsWith(sub, "subs.")
    ensures |Split(sub, ".")| >= 2
    ensures Split(sub, ".")[1] == Split(sub[5..], ".")[0]
  {
    assert OccursAt(sub, ".", 4);
    forall j | 0 <= j < 4
      ensures !OccursAt(sub, ".", j)
    {
      assert sub[j] == "subs."[j];
    }
    assert IndexOf(sub, ".", 0) == Some(4);
  }

  /**
   * The subtitle files `addVideoMetaToDb` lists never make the track
   * mapping throw: each begins with `subs.`.
   */
  lemma SubtitleFilesMakeTracks(key: string, files: seq<string>)
    ensures Tracks(key, Ytdlp.SubtitleFiles(files)).Ok?
  {
    var subs := Ytdlp.SubtitleFiles(files);
    forall j | 0 <= j < |subs|
      ensures |Split(subs[j], ".")| >= 2
    {
      assert subs[j] in subs;
      SubsNameSplits(subs[j]);
    }
  }

  /** yt-dlp names subtitles `subs.<lang>.<ext>`; the track's language is `<lang>`. */
  lemma {:induction false} TrackLanguage(key: string, lang: string, ext: string, i: nat)
    requires '.' !in lang
    ensures TrackFor(key, "subs." + lang + "." + ext, i).Ok?
    ensures TrackFor(key, "subs." + lang + "." + ext, i).value.srclang == lang
  {
    var sub := "subs." + lang + "." + ext;
    SubsNameSplits(sub);
    assert sub[5..] == lang + ['.'] + ext;
    var rest := sub[5..];
    assert OccursAt(rest, ".", |lang|);
    forall j | 0 <= j < |lang|
      ensures !OccursAt(rest, ".", j)
    {
      assert rest[j] == lang[j];
    }
    assert IndexOf(rest, ".", 0) == Some(|lang|);
    SplitFirst(rest, ".");
    assert rest[..|lang|] == lang;
  }

  /** `tags.join(', ') || 'None'`. */
  function TagsText(tags: seq<string>): (r: string)
    ensures tags == [] || tags == [""] ==> r == "None"
    ensures r != "None" ==> r == Join(tags, ", ")
    ensures !(tags == [] || tags == [""]) ==> r == Join(tags, ", ") && r != ""
  {
    JoinEmpty(tags, ", ");
    var joined := Join(tags, ", ");
    if joined == "" then "None" else joined
  }

  /** Everything the page shows that the model derives. */
  datatype View = View(src: string, mime: string, tracks: seq<Track>, tags: string)

  /** The page for `key`, from the metadata's video file, subtitle files and tags. */
  function PageView(key: string, file: string, subs: seq<string>, tags: seq<string>): (r: Result<View>)
    ensures r.Ok? <==> Tracks(key, subs).Ok?
    ensures r.Ok? ==>
      && r.value.src == FileSrc(key, file) && r.value.mime == SourceType(file)
      && r.value.tracks == Tracks(key, subs).value && r.value.tags == TagsText(tags)
  {
    match Tracks(key, subs)
    case Throw(e) => Throw(e)
    case Ok(ts) => Ok(View(FileSrc(key, file), SourceType(file), ts, TagsText(tags)))
  }
}
