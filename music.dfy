/**
 * src/commands/music.js: the id a song URL is stored under, the parsing of
 * an "add to playlist" job, and the choice `commandDownloadMusic` makes
 * from a stored id. The database, the uuid source and the downloads are
 * parameters or left out.
 *
 * `isNewgrounds` is `async`, so the calls here, which do not await it,
 * test a promise, and a promise is always truthy. `SongUrlToId`,
 * `KeepUrl` and `CommandAddMusicToPlaylist` model that; the `...Awaited`
 * members model the evidently intended code that awaits the verdict.
 */
module Music {
  import opened Js
  import opened Text
  import Video
  import Youtube
  import Bilibili
  import SoundCloud
  import Newgrounds

  /** No song URL is `unknown`: every id starts with a site tag. */
  predicate Tagged(id: string) {
    StartsWith(id, "yt#") || StartsWith(id, "bilibili#") || StartsWith(id, "soundcloud#") || StartsWith(id, "newgrounds#")
  }

  /** The classifiers ahead of `isNewgrounds` in `songUrlToId` all answer no (without throwing). */
  predicate NoEarlierSite(u: string) {
    !Truthy(Youtube.IsYoutube(u))
    && Bilibili.IsBilibili(u).Ok? && !Truthy(Bilibili.IsBilibili(u).value)
    && !SoundCloud.IsSoundCloud(u)
  }

  /**
   * `songUrlToId(url)` as written: one trailing `/` removed, then YouTube,
   * Bilibili, SoundCloud and the un-awaited `isNewgrounds`, first hit wins.
   */
  function SongUrlToId(url: string): (r: Result<string>)
    ensures r.Ok? ==> Tagged(r.value)
    ensures NoEarlierSite(DropTrailingSlash(url)) ==>
      r == Ok("newgrounds#" + LastPart(DropTrailingSlash(url), "/"))
  {
    var u := DropTrailingSlash(url);
    assert StartsWith("yt#" + Video.GetYoutubeId(u), "yt#");
    assert StartsWith("soundcloud#" + LastPart(u, "/"), "soundcloud#");
    assert StartsWith("newgrounds#" + LastPart(u, "/"), "newgrounds#");
    if Truthy(Youtube.IsYoutube(u)) then Ok("yt#" + Video.GetYoutubeId(u))
    else
      match Bilibili.IsBilibili(u)
      case Throw(e) => Throw(e)
      case Ok(b) =>
        if Truthy(b) then
          (match Video.GetBilibiliId(u)
           case Throw(e) => Throw(e)
           case Ok(id) =>
             assert StartsWith("bilibili#" + id, "bilibili#");
             Ok("bilibili#" + id))
        else if SoundCloud.IsSoundCloud(u) then Ok("soundcloud#" + LastPart(u, "/"))
        else if Truthy(Newgrounds.IsNewgrounds(u)) then Ok("newgrounds#" + LastPart(u, "/"))
        else Ok("unknown")
  }

  /** `songUrlToId` with `await isNewgrounds(url)`: a URL no site claims is `unknown`. */
  function SongUrlToIdAwaited(url: string): (r: Result<string>)
    ensures r.Ok? ==> Tagged(r.value) || r.value == "unknown"
    ensures NoEarlierSite(DropTrailingSlash(url)) ==>
      && (Newgrounds.IsNewgroundsUrl(DropTrailingSlash(url)) ==> r == Ok("newgrounds#" + LastPart(DropTrailingSlash(url), "/")))
      && (!Newgrounds.IsNewgroundsUrl(DropTrailingSlash(url)) ==> r == Ok("unknown"))
  {
    var u := DropTrailingSlash(url);
    assert StartsWith("yt#" + Video.GetYoutubeId(u), "yt#");
    assert StartsWith("soundcloud#" + LastPart(u, "/"), "soundcloud#");
    assert StartsWith("newgrounds#" + LastPart(u, "/"), "newgrounds#");
    if Truthy(Youtube.IsYoutube(u)) then Ok("yt#" + Video.GetYoutubeId(u))
    else
      match Bilibili.IsBilibili(u)
      case Throw(e) => Throw(e)
      case Ok(b) =>
        if Truthy(b) then
          (match Video.GetBilibiliId(u)
           case Throw(e) => Throw(e)
           case Ok(id) =>
             assert StartsWith("bilibili#" + id, "bilibili#");
             Ok("bilibili#" + id))
        else if SoundCloud.IsSoundCloud(u) then Ok("soundcloud#" + LastPart(u, "/"))
        else if Newgrounds.IsNewgroundsUrl(u) then Ok("newgrounds#" + LastPart(u, "/"))
        else Ok("unknown")
  }

  /** The two readings differ on every URL that no site claims. */
  lemma UnclaimedSongDiffers(url: string)
    requires NoEarlierSite(DropTrailingSlash(url)) && !Newgrounds.IsNewgroundsUrl(DropTrailingSlash(url))
    ensures SongUrlToId(url) == Ok("newgrounds#" + LastPart(DropTrailingSlash(url), "/"))
    ensures SongUrlToIdAwaited(url) == Ok("unknown")
  {
  }

  /** A URL that no site claims. */
  const Unclaimed := "https://e.io/a"

  /** Nothing in `songUrlToId` claims `https://e.io/a`: it is too short for every prefix. */
  lemma UnclaimedUrl()
    ensures DropTrailingSlash(Unclaimed) == Unclaimed
    ensures NoEarlierSite(Unclaimed) && !Newgrounds.IsNewgroundsUrl(Unclaimed)
    ensures LastPart(Unclaimed, "/") == "a"
  {
    var u := Unclaimed;
    assert u[|u| - 1] == 'a';
    assert |Youtube.Normalized(u)| == 14;
    assert |Bilibili.Normalized(u)| == 14;
    assert u == "https://e.io" + ['/'] + "a";
    SplitLastChar("https://e.io", '/', "a");
  }

  /** The counterexample: a URL of no music site is stored as a Newgrounds song. */
  lemma UnclaimedSongIsNewgrounds()
    ensures SongUrlToId(Unclaimed) == Ok("newgrounds#" + "a")
    ensures SongUrlToIdAwaited(Unclaimed) == Ok("unknown")
  {
    UnclaimedUrl();
    UnclaimedSongDiffers(Unclaimed);
  }

  /**
   * The filter of `commandAddMusicToPlaylist` as written:
   * `isNewgrounds(url) || isBilibili(url) || isYoutube(url) || isSoundCloud(url)`.
   * The promise on the left is truthy, so the rest is never evaluated.
   */
  function KeepUrl(url: string): (r: Result<bool>)
    ensures r == Ok(true)
  {
    var n := Newgrounds.IsNewgrounds(url);
    if Truthy(n) then Ok(true)
    else
      match Bilibili.IsBilibili(url)
      case Throw(e) => Throw(e)
      case Ok(b) => Ok(Truthy(b) || Truthy(Youtube.IsYoutube(url)) || SoundCloud.IsSoundCloud(url))
  }

  /** The same filter with the Newgrounds verdict awaited. */
  function KeepUrlAwaited(url: string): (r: Result<bool>)
    ensures Newgrounds.IsNewgroundsUrl(url) ==> r == Ok(true)
    ensures r == Ok(false) <==>
      && !Newgrounds.IsNewgroundsUrl(url)
      && Bilibili.IsBilibili(url).Ok? && !Truthy(Bilibili.IsBilibili(url).value)
      && !Truthy(Youtube.IsYoutube(url)) && !SoundCloud.IsSoundCloud(url)
  {
    if Newgrounds.IsNewgroundsUrl(url) then Ok(true)
    else
      match Bilibili.IsBilibili(url)
      case Throw(e) => Throw(e)
      case Ok(b) => Ok(Truthy(b) || Truthy(Youtube.IsYoutube(url)) || SoundCloud.IsSoundCloud(url))
  }

  /** `urls.filter(keep)`, where `keep` may throw: the first throw ends the filter. */
  function FilterUrls(urls: seq<string>, keep: string -> Result<bool>): (r: Result<seq<string>>)
    ensures r.Throw? <==> exists i :: 0 <= i < |urls| && keep(urls[i]).Throw?
    ensures r.Ok? ==> forall u :: u in r.value <==> u in urls && keep(u) == Ok(true)
    ensures r.Ok? ==> |r.value| <= |urls|
    decreases |urls|
  {
    if |urls| == 0 then Ok([])
    else
      match keep(urls[0])
      case Throw(e) => Throw(e)
      case Ok(k) =>
        match FilterUrls(urls[1..], keep)
        case Throw(e) =>
          assert exists i :: 0 <= i < |urls| && keep(urls[i]).Throw? by {
            var i :| 0 <= i < |urls[1..]| && keep(urls[1..][i]).Throw?;
            assert urls[i + 1] == urls[1..][i];
          }
          Throw(e)
      case Ok(rest) =>
        assert urls == [urls[0]] + urls[1..];
        assert forall i :: 0 < i < |urls| ==> urls[i] == urls[1..][i - 1];
        if k then Ok([urls[0]] + rest) else Ok(rest)
  }

  /**
   * `filter` keeps order and repeats: filtering `a + b` filters `a`, then
   * `b`, and throws if either does.
   */
  lemma {:induction false} FilterUrlsConcat(a: seq<string>, b: seq<string>, keep: string -> Result<bool>)
    ensures FilterUrls(a + b, keep).Ok? <==> FilterUrls(a, keep).Ok? && FilterUrls(b, keep).Ok?
    ensures FilterUrls(a + b, keep).Ok? ==>
      FilterUrls(a + b, keep).value == FilterUrls(a, keep).value + FilterUrls(b, keep).value
    decreases |a|
  {
    if a != [] {
      var ab := a + b;
      assert ab[0] == a[0];
      assert ab[1..] == a[1..] + b;
      FilterUrlsConcat(a[1..], b, keep);
      var tail := FilterUrls(a[1..] + b, keep);
      match keep(a[0])
      case Throw(e) =>
        assert FilterUrls(ab, keep).Throw? && FilterUrls(a, keep).Throw?;
      case Ok(k) =>
        if tail.Ok? {
          var rest := FilterUrls(a[1..], keep).value;
          if k {
            assert FilterUrls(ab, keep) == Ok([a[0]] + tail.value);
            assert FilterUrls(a, keep) == Ok([a[0]] + rest);
            assert [a[0]] + tail.value == [a[0]] + rest + FilterUrls(b, keep).value;
          } else {
            assert FilterUrls(ab, keep) == tail;
            assert FilterUrls(a, keep) == Ok(rest);
          }
        } else {
          assert FilterUrls(ab, keep).Throw?;
        }
    } else {
      assert a + b == b;
    }
  }

  /** One URL is kept exactly when `keep` says so, and the filter throws exactly when `keep` does. */
  lemma FilterUrlsOne(u: string, keep: string -> Result<bool>)
    ensures FilterUrls([u], keep) == match keep(u)
      case Throw(e) => Throw(e)
      case Ok(k) => Ok(if k then [u] else [])
  {
    assert [u][1..] == [];
    assert FilterUrls([], keep) == Ok([]);
    match keep(u)
    case Throw(e) =>
    case Ok(k) =>
      assert FilterUrls([u], keep) == if k then Ok([u] + []) else Ok([]);
      assert [u] + [] == [u];
  }


  /** Where every URL is kept, the filter gives the list back. */
  lemma {:induction false} FilterKeepsAll(urls: seq<string>, keep: string -> Result<bool>)
    requires forall i :: 0 <= i < |urls| ==> keep(urls[i]) == Ok(true)
    ensures FilterUrls(urls, keep) == Ok(urls)
    decreases |urls|
  {
    if |urls| > 0 {
      assert forall i :: 0 <= i < |urls[1..]| ==> urls[1..][i] == urls[i + 1];
      FilterKeepsAll(urls[1..], keep);
      assert urls == [urls[0]] + urls[1..];
    }
  }

  /** `urls.map(toId)`, where `toId` may throw: the first throw ends the map. */
  function MapIds(urls: seq<string>, toId: string -> Result<string>): (r: Result<seq<string>>)
    ensures r.Throw? <==> exists i :: 0 <= i < |urls| && toId(urls[i]).Throw?
    ensures r.Ok? ==> |r.value| == |urls| && forall i :: 0 <= i < |urls| ==> toId(urls[i]) == Ok(r.value[i])
    decreases |urls|
  {
    if |urls| == 0 then Ok([])
    else
      match toId(urls[0])
      case Throw(e) => Throw(e)
      case Ok(id) =>
        match MapIds(urls[1..], toId)
        case Throw(e) =>
          assert exists i :: 0 <= i < |urls| && toId(urls[i]).Throw? by {
            var i :| 0 <= i < |urls[1..]| && toId(urls[1..][i]).Throw?;
            assert urls[i + 1] == urls[1..][i];
          }
          Throw(e)
        case Ok(rest) =>
          assert forall i :: 0 < i < |urls| ==> urls[i] == urls[1..][i - 1];
          Ok([id] + rest)
  }

  /** A row `commandAddMusicToPlaylist` inserts into `site.status` (the two dates left out). */
  datatype StatusRow = StatusRow(id: string, name: string, data: string, requestor: string, priority: int, status: string)

  /** What the job writes: the playlist's new songs, and one queued download per song. */
  datatype PlaylistAdd = PlaylistAdd(playlistId: string, songIds: seq<string>, statusRows: seq<StatusRow>)

  /** The queued download of the `i`-th song: uuid `uuid(i)`, priority -1. */
  function DownloadRow(uuid: nat -> string, songIds: seq<string>, requestor: string, i: nat): StatusRow
    requires i < |songIds|
  {
    StatusRow(uuid(i), "music_download", songIds[i], requestor, -1, "queued")
  }

  /**
   * The body of `commandAddMusicToPlaylist` with the filter and the id
   * function it uses: the first comma field is the playlist, the rest are
   * song URLs.
   */
  function AddToPlaylist(data: string, requestor: string, uuid: nat -> string,
                         keep: string -> Result<bool>, toId: string -> Result<string>): (r: Result<PlaylistAdd>)
    ensures r.Ok? ==> r.value.playlistId == Split(data, ",")[0]
    ensures r.Ok? ==> |r.value.statusRows| == |r.value.songIds|
    ensures r.Ok? ==>
      forall i :: 0 <= i < |r.value.songIds| ==> r.value.statusRows[i] == DownloadRow(uuid, r.value.songIds, requestor, i)
  {
    var tmp := Split(data, ",");
    var playlistId := tmp[0];
    match FilterUrls(tmp[1..], keep)
    case Throw(e) => Throw(e)
    case Ok(songUrls) =>
      match MapIds(songUrls, toId)
      case Throw(e) => Throw(e)
      case Ok(songIds) =>
        Ok(PlaylistAdd(playlistId, songIds, seq(|songIds|, i requires 0 <= i < |songIds| => DownloadRow(uuid, songIds, requestor, i))))
  }

  /**
   * `commandAddMusicToPlaylist(data)` as written: every field after the
   * first is kept, and each becomes the song id `songUrlToId` gives it.
   */
  function CommandAddMusicToPlaylist(data: string, requestor: string, uuid: nat -> string): (r: Result<PlaylistAdd>)
    ensures var urls := Split(data, ",")[1..];
      && (r.Throw? <==> exists i :: 0 <= i < |urls| && SongUrlToId(urls[i]).Throw?)
      && (r.Ok? ==> |r.value.songIds| == |urls|)
      && (r.Ok? ==> forall i :: 0 <= i < |urls| ==> SongUrlToId(urls[i]) == Ok(r.value.songIds[i]))
  {
    var urls := Split(data, ",")[1..];
    FilterKeepsAll(urls, KeepUrl);
    AddToPlaylist(data, requestor, uuid, KeepUrl, SongUrlToId)
  }

  /** Every id of a filtered and mapped list is the id of a URL the filter kept. */
  lemma SongsFromKeptUrls(urls: seq<string>, keep: string -> Result<bool>, toId: string -> Result<string>,
                          ids: seq<string>)
    requires FilterUrls(urls, keep).Ok? && MapIds(FilterUrls(urls, keep).value, toId) == Ok(ids)
    ensures forall i :: 0 <= i < |ids| ==> exists u :: u in urls && keep(u) == Ok(true) && toId(u) == Ok(ids[i])
  {
    var kept := FilterUrls(urls, keep).value;
    forall i | 0 <= i < |ids|
      ensures exists u :: u in urls && keep(u) == Ok(true) && toId(u) == Ok(ids[i])
    {
      assert kept[i] in kept;
    }
  }

  /** The same job with the Newgrounds verdict awaited in both the filter and the ids. */
  function CommandAddMusicToPlaylistAwaited(data: string, requestor: string, uuid: nat -> string): (r: Result<PlaylistAdd>)
    ensures r.Ok? ==> FilterUrls(Split(data, ",")[1..], KeepUrlAwaited).Ok?
    ensures r.Ok? ==>
      MapIds(FilterUrls(Split(data, ",")[1..], KeepUrlAwaited).value, SongUrlToIdAwaited) == Ok(r.value.songIds)
    ensures r.Ok? ==> forall i :: 0 <= i < |r.value.songIds| ==>
      exists u :: u in Split(data, ",")[1..] && KeepUrlAwaited(u) == Ok(true) && SongUrlToIdAwaited(u) == Ok(r.value.songIds[i])
  {
    var urls := Split(data, ",")[1..];
    var r := AddToPlaylist(data, requestor, uuid, KeepUrlAwaited, SongUrlToIdAwaited);
    if r.Ok? then
      SongsFromKeptUrls(urls, KeepUrlAwaited, SongUrlToIdAwaited, r.value.songIds);
      r
    else r
  }

  /**
   * The two readings disagree on a playlist holding one URL of no music
   * site: as written it is kept as a Newgrounds song, awaited it is dropped.
   */
  lemma UnclaimedPlaylistSong(playlist: string, url: string, requestor: string, uuid: nat -> string)
    requires ',' !in playlist && ',' !in url && DropTrailingSlash(url) == url
    requires NoEarlierSite(url) && !Newgrounds.IsNewgroundsUrl(url)
    ensures CommandAddMusicToPlaylist(playlist + "," + url, requestor, uuid).Ok?
    ensures CommandAddMusicToPlaylist(playlist + "," + url, requestor, uuid).value.songIds
      == ["newgrounds#" + LastPart(url, "/")]
    ensures CommandAddMusicToPlaylistAwaited(playlist + "," + url, requestor, uuid) == Ok(PlaylistAdd(playlist, [], []))
  {
    UnclaimedSongDiffers(url);
    var data := playlist + "," + url;
    assert data == playlist + [','] + url;
    SplitAtOnlyChar(playlist, ',', url);
    var urls := Split(data, ",")[1..];
    assert urls == [url];
    assert KeepUrlAwaited(url) == Ok(false);
    assert FilterUrls(urls, KeepUrlAwaited) == Ok([]) by {
      assert urls[1..] == [];
    }
  }

  /** What `commandDownloadMusic` sets off: a yt-dlp download plus the metadata row, or nothing. */
  datatype MusicAction =
    | FetchYoutube(videoId: Option<string>, jsonPath: string, key: string)
    | FetchBilibili(videoId: Option<string>, jsonPath: string, key: string)
    | NoAction

  /**
   * `let [type, videoId] = data.data.split('#')`, the folder
   * `<fileDir>/videos/<data>`, and the branch on `type`; `videoId` is
   * `undefined` when there is no `#`.
   */
  function CommandDownloadMusic(data: string, fileDir: string): (r: MusicAction)
    ensures r.FetchYoutube? <==> Split(data, "#")[0] == "yt"
    ensures r.FetchBilibili? <==> Split(data, "#")[0] == "bilibili"
    ensures !r.NoAction? ==> r.videoId == Second(Split(data, "#"))
    ensures !r.NoAction? ==> r.jsonPath == PathJoin(PathJoin(fileDir, "videos"), data) && r.key == data
  {
    var parts := Split(data, "#");
    var jsonPath := PathJoin(PathJoin(fileDir, "videos"), data);
    if parts[0] == "yt" then FetchYoutube(Second(parts), jsonPath, data)
    else if parts[0] == "bilibili" then FetchBilibili(Second(parts), jsonPath, data)
    else NoAction
  }

  /**
   * A YouTube song's stored id is read back by `commandDownloadMusic` as a
   * YouTube download of the very id `getYoutubeId` found.
   */
  lemma YoutubeSongRoundTrip(url: string, fileDir: string)
    requires Truthy(Youtube.IsYoutube(DropTrailingSlash(url)))
    ensures SongUrlToId(url) == Ok("yt#" + Video.GetYoutubeId(DropTrailingSlash(url)))
    ensures CommandDownloadMusic(SongUrlToId(url).value, fileDir).FetchYoutube?
    ensures CommandDownloadMusic(SongUrlToId(url).value, fileDir).videoId == Some(Video.GetYoutubeId(DropTrailingSlash(url)))
  {
    var id := Video.GetYoutubeId(DropTrailingSlash(url));
    Video.YoutubeIdHasNoHash(DropTrailingSlash(url));
    assert "yt#" + id == "yt" + ['#'] + id;
    SplitAtOnlyChar("yt", '#', id);
  }

  /** Tags other than `yt` and `bilibili`, such as the stored `soundcloud#` and `newgrounds#` ids, do nothing. */
  lemma OtherSongsDoNothing(rest: string, fileDir: string)
    ensures CommandDownloadMusic("soundcloud#" + rest, fileDir) == NoAction
    ensures CommandDownloadMusic("newgrounds#" + rest, fileDir) == NoAction
  {
    var a := "soundcloud#" + rest;
    var b := "newgrounds#" + rest;
    assert a == "soundcloud" + ['#'] + rest;
    assert b == "newgrounds" + ['#'] + rest;
    FirstCharAfter("soundcloud", '#', rest);
    FirstCharAfter("newgrounds", '#', rest);
  }
}
