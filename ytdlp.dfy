/**
 * src/util/ytdlp.js: the argument lists handed to yt-dlp, and the metadata
 * row `addVideoMetaToDb` builds from the downloaded info JSON and the
 * listing of the download folder. The subprocess, the JSON file and the
 * database are inputs: the info JSON is the object `data`, the folder
 * listing is `files`, and the `video_meta` table is a map from id to row.
 */
module Ytdlp {
  import opened Js
  import opened Text
  import Video

  // ---------------------------------------------------------------------
  // The yt-dlp invocations
  // ---------------------------------------------------------------------

  function YoutubeWatchUrl(id: string): string {
    "https://www.youtube.com/watch?v=" + id
  }

  function BilibiliVideoUrl(id: string): string {
    "https://www.bilibili.com/video/" + id
  }

  /** The first of `downloadYoutube`'s two runs: video, thumbnail and info JSON. */
  function YoutubeMediaArgs(id: string, dest: string): (r: seq<string>)
    ensures |r| == 13 && r[0] == YoutubeWatchUrl(id)
    ensures r[11] == "-o" && r[12] == PathJoin(dest, "output.%(ext)s")
    ensures "--write-info-json" in r && "--write-thumbnail" in r
  {
    [YoutubeWatchUrl(id), "--no-post-overwrites", "--quiet",
     "--write-thumbnail", "--write-info-json",
     "-S", "vcodec:h264",
     "--cookies", "yt-dlp/yt-cookies.txt",
     "-f", "bestvideo[height<=720]+bestaudio",
     "-o", PathJoin(dest, "output.%(ext)s")]
  }

  /** The second run: every subtitle language except the live chat, without the media. */
  function YoutubeSubtitleArgs(id: string, dest: string): (r: seq<string>)
    ensures |r| == 11 && r[0] == YoutubeWatchUrl(id)
    ensures r[9] == "-o" && r[10] == PathJoin(dest, "subs.%(ext)s")
    ensures r[5] == "--sub-langs" && r[6] == "all,-live_chat"
    ensures "--skip-download" in r && "--write-subs" in r
  {
    [YoutubeWatchUrl(id), "--no-post-overwrites", "--quiet",
     "--cookies", "yt-dlp/yt-cookies.txt",
     "--sub-langs", "all,-live_chat", "--write-subs",
     "--skip-download",
     "-o", PathJoin(dest, "subs.%(ext)s")]
  }

  /** `downloadBilibili`'s single run: no subtitles are requested. */
  function BilibiliMediaArgs(id: string, dest: string): (r: seq<string>)
    ensures |r| == 13 && r[0] == BilibiliVideoUrl(id)
    ensures r[11] == "-o" && r[12] == PathJoin(dest, "output.%(ext)s")
    ensures "--write-info-json" in r
  {
    [BilibiliVideoUrl(id), "--no-post-overwrites", "--quiet",
     "--write-thumbnail", "--write-info-json",
     "-S", "vcodec:h264",
     "--cookies", "yt-dlp/bilibili-cookies.txt",
     "-f", "bestvideo[height<=720]+bestaudio",
     "-o", PathJoin(dest, "output.%(ext)s")]
  }

  /** The runs `downloadYoutube(id, dest)` makes, in order. */
  function DownloadYoutubeRuns(id: string, dest: string): seq<seq<string>> {
    [YoutubeMediaArgs(id, dest), YoutubeSubtitleArgs(id, dest)]
  }

  /** The runs `downloadBilibili(id, dest)` makes. */
  function DownloadBilibiliRuns(id: string, dest: string): seq<seq<string>> {
    [BilibiliMediaArgs(id, dest)]
  }

  /** An id made only of `[A-Za-z0-9-_]`, the shape of YouTube and Bilibili ids. */
  predicate PlainId(id: string) {
    forall i :: 0 <= i < |id| ==> Video.IsIdChar(id[i])
  }

  /** A run of id characters reaches the end of the string. */
  lemma {:induction false} RunReachesEnd(s: string, from: nat, ok: char -> bool)
    requires from <= |s|
    requires forall j :: from <= j < |s| ==> ok(s[j])
    ensures RunEnd(s, from, ok) == |s|
  {
  }

  /** The watch URL is one line: `.*` may reach its end. */
  lemma WatchUrlIsOneLine(id: string)
    requires PlainId(id)
    ensures Video.LineEnd(YoutubeWatchUrl(id), 0) == |YoutubeWatchUrl(id)|
  {
    var s := YoutubeWatchUrl(id);
    assert forall j :: 32 <= j < |s| ==> s[j] == id[j - 32];
    assert NoLineTerminator(s);
  }

  /** `?v=` matches at index 29 of the watch URL, and no marker starts after it. */
  lemma WatchUrlMarkers(id: string)
    requires PlainId(id)
    ensures Video.YoutubeMarkerAt(YoutubeWatchUrl(id), 29) == Some(3)
    ensures forall q :: 29 < q <= |YoutubeWatchUrl(id)| ==> Video.YoutubeMarkerAt(YoutubeWatchUrl(id), q).None?
  {
    var s := YoutubeWatchUrl(id);
    assert s[29..32] == "?v=";
    assert s[29] == '?' && s[31] == '=';
    assert forall j :: 32 <= j < |s| ==> s[j] == id[j - 32];
    forall q | 29 < q <= |s|
      ensures Video.YoutubeMarkerAt(s, q).None?
    {
      if q == 30 {
        assert s[30] == 'v' && s[31] == '=';
      } else if q == 31 {
        assert s[31] == '=';
      } else {
        Video.NoMarkerBeforeIdChars(s, q);
      }
    }
  }

  /**
   * The watch URL handed to yt-dlp gives the same id back to
   * `getYoutubeId`: the marker `?v=` at index 29 is the last one, because
   * every marker ends in `/` or `=` and a plain id holds neither.
   */
  lemma {:induction false} YoutubeWatchUrlRoundTrip(id: string)
    requires PlainId(id)
    ensures Video.GetYoutubeId(YoutubeWatchUrl(id)) == id
  {
    var s := YoutubeWatchUrl(id);
    WatchUrlIsOneLine(id);
    WatchUrlMarkers(id);
    assert Video.IsLastYoutubeMarker(s, 29, 3);
    Video.GetYoutubeIdSpec(s);
    assert forall j :: 32 <= j < |s| ==> Video.IsYoutubeIdChar(s[j]) by {
      assert forall j :: 32 <= j < |s| ==> s[j] == id[j - 32];
    }
    RunReachesEnd(s, 32, Video.IsYoutubeIdChar);
    assert s[32..] == id;
  }

  /** The Bilibili video URL of a plain id holds no `/list/`. */
  lemma VideoUrlHasNoList(id: string)
    requires PlainId(id)
    ensures !Includes(BilibiliVideoUrl(id), "/list/")
  {
    var s := BilibiliVideoUrl(id);
    assert s[..31] == "https://www.bilibili.com/video/";
    forall j: nat | j + 6 <= |s|
      ensures !OccursAt(s, "/list/", j)
    {
      if j + 5 >= 31 {
        assert s[j + 5] == id[j + 5 - 31];
        assert s[j..j + 6][5] == s[j + 5];
      } else {
        NoSlashThenL(s, j);
        assert s[j..j + 6][0] == s[j] && s[j..j + 6][1] == s[j + 1];
      }
    }
  }

  /** In the Bilibili video prefix no `/` is followed by `l`. */
  lemma NoSlashThenL(s: string, j: nat)
    requires |s| >= 31 && s[..31] == "https://www.bilibili.com/video/" && j + 1 < 31
    ensures s[j] != '/' || s[j + 1] != 'l'
  {
    var p := "https://www.bilibili.com/video/";
    assert s[j] == p[j] && s[j + 1] == p[j + 1];
    assert p[j] == '/' ==> j == 6 || j == 7 || j == 24;
    assert p[7] == '/' && p[8] == 'w' && p[25] == 'v';
  }

  /**
   * The video URL handed to yt-dlp gives the same id back to
   * `getBilibiliId`, for a non-empty plain id.
   */
  lemma {:induction false} BilibiliVideoUrlRoundTrip(id: string)
    requires PlainId(id) && id != ""
    ensures Video.GetBilibiliId(BilibiliVideoUrl(id)) == Ok(id)
  {
    var s := BilibiliVideoUrl(id);
    VideoUrlHasNoList(id);
    assert s[..31] == "https://www.bilibili.com/video/";
    assert Video.BilibiliPrefixAt(s, 0) == Some(31);
    assert s[31] == id[0];
    assert Video.BilibiliMatchAt(s, 0);
    assert forall j :: 31 <= j < |s| ==> Video.IsIdChar(s[j]) by {
      assert forall j :: 31 <= j < |s| ==> s[j] == id[j - 31];
    }
    RunReachesEnd(s, 31, Video.IsIdChar);
    assert Video.FirstBilibiliMatch(s, 0) == Some((31, |s|));
    assert s[31..|s|] == id;
  }

  // ---------------------------------------------------------------------
  // addVideoMetaToDb: choosing files from the folder listing
  // ---------------------------------------------------------------------

  const ThumbnailExtensions: seq<string> := ["webp", "png", "jpg", "gif", "jpeg", "bmp", "svg"]

  const VideoExtensions: seq<string> :=
    ["mp4", "mov", "webm", "wmv", "avi", "flv", "mkv", "mts", "m4v", "mpg", "mpeg", "ts", "m2p", "asf", "3gp"]

  /** The filter test: the lower-cased last `.`-segment is listed and the name holds at most one `.`. */
  predicate HasListedExtension(f: string, exts: seq<string>) {
    ToLower(LastPart(f, ".")) in exts && |Split(f, ".")| <= 2
  }

  /** `files[i]` is the first listed name that passes the filter. */
  predicate FirstListed(files: seq<string>, exts: seq<string>, i: nat) {
    i < |files| && HasListedExtension(files[i], exts)
    && forall j :: 0 <= j < i ==> !HasListedExtension(files[j], exts)
  }

  /**
   * Skipping a first name that does not pass: whatever the filter picks from
   * the rest, it picks from the whole list.
   */
  lemma FirstListedSkip(files: seq<string>, exts: seq<string>, r: string)
    requires files != [] && !HasListedExtension(files[0], exts)
    requires r != "" ==> exists i: nat :: FirstListed(files[1..], exts, i) && files[1..][i] == r
    requires (exists j :: 0 <= j < |files[1..]| && HasListedExtension(files[1..][j], exts)) ==> HasListedExtension(r, exts)
    requires forall i: nat :: FirstListed(files[1..], exts, i) ==> r == files[1..][i]
    ensures r != "" ==> exists i: nat :: FirstListed(files, exts, i) && files[i] == r
    ensures (exists j :: 0 <= j < |files| && HasListedExtension(files[j], exts)) ==> HasListedExtension(r, exts)
    ensures forall i: nat :: FirstListed(files, exts, i) ==> r == files[i]
  {
    assert forall i: nat :: FirstListed(files, exts, i) ==> i >= 1 && FirstListed(files[1..], exts, i - 1);
    if exists j :: 0 <= j < |files| && HasListedExtension(files[j], exts) {
      var j :| 0 <= j < |files| && HasListedExtension(files[j], exts);
      assert files[1..][j - 1] == files[j];
    }
    if r != "" {
      var i: nat :| FirstListed(files[1..], exts, i) && files[1..][i] == r;
      assert FirstListed(files, exts, i + 1);
    }
  }

  /** `files.filter(f => ...)[0] || ''`. */
  function FirstWithExtension(files: seq<string>, exts: seq<string>): (r: string)
    decreases |files|
    ensures r != "" ==> exists i: nat :: FirstListed(files, exts, i) && files[i] == r
    ensures (exists j :: 0 <= j < |files| && HasListedExtension(files[j], exts)) ==> HasListedExtension(r, exts)
    ensures forall i: nat :: FirstListed(files, exts, i) ==> r == files[i]
  {
    if files == [] then ""
    else if HasListedExtension(files[0], exts) then files[0]
    else
      var r := FirstWithExtension(files[1..], exts);
      FirstListedSkip(files, exts, r);
      r
  }

  /** No extension on either list is empty, so an empty name never passes. */
  lemma EmptyNameNotListed()
    ensures !HasListedExtension("", ThumbnailExtensions)
    ensures !HasListedExtension("", VideoExtensions)
  {
    CharNotFound("", '.');
    assert LastPart("", ".") == "";
    assert ToLower("") == "";
  }

  function ThumbnailFile(files: seq<string>): string {
    FirstWithExtension(files, ThumbnailExtensions)
  }

  function VideoFile(files: seq<string>): string {
    FirstWithExtension(files, VideoExtensions)
  }

  /** The chosen video file is `''` exactly when no listed name passes the filter. */
  lemma VideoFileEmpty(files: seq<string>)
    ensures VideoFile(files) == "" <==> forall j :: 0 <= j < |files| ==> !HasListedExtension(files[j], VideoExtensions)
    ensures ThumbnailFile(files) == "" <==> forall j :: 0 <= j < |files| ==> !HasListedExtension(files[j], ThumbnailExtensions)
  {
    EmptyNameNotListed();
  }

  /** `files.filter(f => f.startsWith('subs.'))`, in listing order. */
  function SubtitleFiles(files: seq<string>): (r: seq<string>)
    decreases |files|
    ensures |r| <= |files|
    ensures forall f :: f in r <==> f in files && StartsWith(f, "subs.")
  {
    if files == [] then []
    else
      var rest := SubtitleFiles(files[1..]);
      assert forall f :: f in files <==> f == files[0] || f in files[1..];
      if StartsWith(files[0], "subs.") then [files[0]] + rest else rest
  }

  /** `filter` keeps the listing order: the subtitles of `a + b` are those of `a`, then those of `b`. */
  lemma {:induction false} SubtitleFilesConcat(a: seq<string>, b: seq<string>)
    ensures SubtitleFiles(a + b) == SubtitleFiles(a) + SubtitleFiles(b)
    decreases |a|
  {
    if a != [] {
      assert (a + b)[0] == a[0];
      assert (a + b)[1..] == a[1..] + b;
      SubtitleFilesConcat(a[1..], b);
    } else {
      assert a + b == b;
    }
  }

  /** One name is kept exactly when it starts with `subs.`. */
  lemma SubtitleFilesOne(f: string)
    ensures SubtitleFiles([f]) == if StartsWith(f, "subs.") then [f] else []
  {
    assert [f][1..] == [];
  }

  // ---------------------------------------------------------------------
  // addVideoMetaToDb: the upload time
  // ---------------------------------------------------------------------

  /**
   * The `Date` built for the upload time: from epoch milliseconds, or from
   * local calendar fields (year, zero-based month, day) which may be NaN.
   */
  datatype UploadTime =
    | AtEpochMs(ms: Value)
    | AtLocalDate(year: Value, monthIndex: Value, day: Value)

  /** `+v` for the values an info JSON holds; arrays and objects become NaN here. */
  function ToNumber(v: Value): Value {
    match v
    case Undefined => NaN
    case Null => Num(0)
    case Bool(b) => Num(if b then 1 else 0)
    case Num(n) => Num(n)
    case Str(s) => StringToNumber(s)
    case _ => NaN
  }

  /** `v * 1000`. */
  function TimesThousand(v: Value): Value {
    match ToNumber(v)
    case Num(n) => Num(n * 1000)
    case _ => NaN
  }

  /** `v - 1` on a number. */
  function MinusOne(v: Value): Value {
    match v
    case Num(n) => Num(n - 1)
    case _ => NaN
  }

  /**
   * `timestamp || release_timestamp` seconds, else the `YYYYMMDD` string in
   * `upload_date`; a missing or non-string `upload_date` throws.
   */
  function UploadTimeOf(data: map<string, Value>): (r: Result<UploadTime>)
    ensures r.Throw? ==> r.message == TypeErrorMessage
  {
    var ts := Or(Get(data, "timestamp"), Get(data, "release_timestamp"));
    if Truthy(ts) then Ok(AtEpochMs(TimesThousand(ts)))
    else
      match Get(data, "upload_date")
      case Str(d) =>
        Ok(AtLocalDate(StringToNumber(Substring(d, 0, 4)),
                       MinusOne(StringToNumber(Substring(d, 4, 6))),
                       StringToNumber(Substring(d, 6, 8))))
      case _ => Throw(TypeErrorMessage)
  }

  /** `timestamp` wins over `release_timestamp`, which wins over `upload_date`. */
  lemma UploadTimePrecedence(data: map<string, Value>)
    ensures Truthy(Get(data, "timestamp")) ==>
      UploadTimeOf(data) == Ok(AtEpochMs(TimesThousand(Get(data, "timestamp"))))
    ensures !Truthy(Get(data, "timestamp")) && Truthy(Get(data, "release_timestamp")) ==>
      UploadTimeOf(data) == Ok(AtEpochMs(TimesThousand(Get(data, "release_timestamp"))))
    ensures !Truthy(Get(data, "timestamp")) && !Truthy(Get(data, "release_timestamp")) ==>
      (UploadTimeOf(data).Throw? <==> !Get(data, "upload_date").Str?)
  {
  }

  /** Whole seconds become whole milliseconds. */
  lemma EpochSecondsToMs(data: map<string, Value>, seconds: int)
    requires seconds != 0 && Get(data, "timestamp") == Num(seconds)
    ensures UploadTimeOf(data) == Ok(AtEpochMs(Num(1000 * seconds)))
  {
  }

  /**
   * A well-formed `YYYYMMDD` date is split into its year, its month less
   * one, and its day.
   */
  lemma {:induction false} UploadDateFields(data: map<string, Value>, y: string, m: string, d: string)
    requires !Truthy(Get(data, "timestamp")) && !Truthy(Get(data, "release_timestamp"))
    requires |y| == 4 && |m| == 2 && |d| == 2 && AllDigits(y) && AllDigits(m) && AllDigits(d)
    requires Get(data, "upload_date") == Str(y + m + d)
    ensures UploadTimeOf(data) ==
      Ok(AtLocalDate(Num(DigitsValue(y)), Num(DigitsValue(m) - 1), Num(DigitsValue(d))))
  {
    var s := y + m + d;
    assert Substring(s, 0, 4) == y;
    assert Substring(s, 4, 6) == m;
    assert Substring(s, 6, 8) == d;
  }

  // ---------------------------------------------------------------------
  // addVideoMetaToDb: the parameter row
  // ---------------------------------------------------------------------

  /** One bound parameter of the insert: a JSON value, or the upload `Date`. */
  datatype Param = Val(v: Value) | Time(t: UploadTime)

  /** The 16 parameters, in the column order of `video_meta`, for a known upload time. */
  function ParamsAt(videoId: string, data: map<string, Value>, files: seq<string>, t: UploadTime): (r: seq<Param>)
    ensures |r| == 16 && r[0] == Val(Str(videoId)) && r[4] == Time(t)
  {
    [Val(Str(videoId)),
     Val(Get(data, "uploader")),
     Val(Or(Get(data, "uploader_id"), Str("Unknown id"))),
     Val(Or(Get(data, "uploader_url"), Str(""))),
     Time(t),
     Val(Get(data, "fulltitle")),
     Val(Get(data, "duration_string")),
     Val(Or(Get(data, "description"), Str("No description provided"))),
     Val(Or(Get(data, "view_count"), Num(0))),
     Val(Or(Get(data, "comment_count"), Num(0))),
     Val(Or(Get(data, "like_count"), Num(0))),
     Val(Get(data, "filesize_approx")),
     Val(Or(Get(data, "tags"), Arr([]))),
     Val(Str(ThumbnailFile(files))),
     Val(Str(VideoFile(files))),
     Val(Arr(Strs(SubtitleFiles(files))))]
  }

  /** The parameter array, or the error the upload time throws. */
  function MetaParams(videoId: string, data: map<string, Value>, files: seq<string>): (r: Result<seq<Param>>)
    ensures r.Ok? <==> UploadTimeOf(data).Ok?
    ensures r.Ok? ==> |r.value| == 16 && r.value[4] == Time(UploadTimeOf(data).value)
  {
    match UploadTimeOf(data)
    case Throw(e) => Throw(e)
    case Ok(t) => Ok(ParamsAt(videoId, data, files, t))
  }

  /** Field `key` falls back to `dflt` when falsy and is kept when truthy. */
  predicate Defaulted(p: seq<Param>, k: nat, data: map<string, Value>, key: string, dflt: Value) {
    k < |p|
    && (!Truthy(Get(data, key)) ==> p[k] == Val(dflt))
    && (Truthy(Get(data, key)) ==> p[k] == Val(Get(data, key)))
  }

  /**
   * The defaults: a missing or falsy field is replaced by `Unknown id`,
   * `''`, `No description provided`, 0 or `[]`; a truthy one is kept.
   * The id comes first; uploader, title, duration and size pass through.
   */
  lemma MetaDefaults(videoId: string, data: map<string, Value>, files: seq<string>)
    requires MetaParams(videoId, data, files).Ok?
    ensures var p := MetaParams(videoId, data, files).value;
      p[0] == Val(Str(videoId))
      && p[1] == Val(Get(data, "uploader")) && p[5] == Val(Get(data, "fulltitle"))
      && p[6] == Val(Get(data, "duration_string")) && p[11] == Val(Get(data, "filesize_approx"))
      && Defaulted(p, 2, data, "uploader_id", Str("Unknown id"))
      && Defaulted(p, 3, data, "uploader_url", Str(""))
      && Defaulted(p, 7, data, "description", Str("No description provided"))
      && Defaulted(p, 8, data, "view_count", Num(0))
      && Defaulted(p, 9, data, "comment_count", Num(0))
      && Defaulted(p, 10, data, "like_count", Num(0))
      && Defaulted(p, 12, data, "tags", Arr([]))
      && p[13] == Val(Str(ThumbnailFile(files)))
  {
  }

  /**
   * What the video pages read back with `meta.at(-2)` and `meta.at(-1)`:
   * the chosen video file and the subtitle files.
   */
  lemma PageReadsFiles(videoId: string, data: map<string, Value>, files: seq<string>)
    requires MetaParams(videoId, data, files).Ok?
    ensures SecondLast(MetaParams(videoId, data, files).value) == Some(Val(Str(VideoFile(files))))
    ensures Last(MetaParams(videoId, data, files).value) == Val(Arr(Strs(SubtitleFiles(files))))
  {
  }

  /** `INSERT ... ON CONFLICT (id) DO NOTHING` on the `video_meta` table. */
  function InsertMeta(table: map<string, seq<Param>>, videoId: string, params: seq<Param>): (r: map<string, seq<Param>>)
    ensures videoId in r && r.Keys == table.Keys + {videoId}
    ensures videoId in table ==> r == table
    ensures videoId !in table ==> r[videoId] == params
    ensures forall k :: k in table ==> r[k] == table[k]
  {
    if videoId in table then table else table[videoId := params]
  }

  /** Storing the same video twice leaves the table as the first store did. */
  lemma InsertMetaIdempotent(table: map<string, seq<Param>>, videoId: string, p1: seq<Param>, p2: seq<Param>)
    ensures InsertMeta(InsertMeta(table, videoId, p1), videoId, p2) == InsertMeta(table, videoId, p1)
  {
  }

  /** `addVideoMetaToDb`: the row it builds and the table after the insert. */
  function AddVideoMetaToDb(table: map<string, seq<Param>>, videoId: string, data: map<string, Value>, files: seq<string>)
    : (r: Result<(seq<Param>, map<string, seq<Param>>)>)
    ensures r.Ok? <==> UploadTimeOf(data).Ok?
    ensures r.Ok? ==> (|r.value.0| == 16 && r.value.0[0] == Val(Str(videoId)))
    ensures r.Ok? ==> (videoId in r.value.1 && r.value.1.Keys == table.Keys + {videoId})
    ensures r.Ok? && videoId in table ==> r.value.1 == table
    ensures r.Ok? && videoId !in table ==> r.value.1[videoId] == r.value.0
  {
    match MetaParams(videoId, data, files)
    case Throw(e) => Throw(e)
    case Ok(p) => Ok((p, InsertMeta(table, videoId, p)))
  }
}
