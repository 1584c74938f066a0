# apps-site-service, modelled in Dafny

The service is a job runner. A database table of queued jobs is drained
one at a time by a dispatcher. Each job names a command and carries one
string argument, usually a URL. The commands classify the URL by site
(YouTube, Bilibili, SoundCloud, Newgrounds, Twitter, reddit, pixiv), pick
a downloader, derive ids, file names and pages from what the site
returns, and store the result.

This project models, one Dafny module per source file:

- `Server` (src/server.js): the dispatcher.
  - It is a class whose fields are the in-memory queue, the running flag,
    the set of ids already queued, and the two database tables the
    dispatcher writes (`site.queue` and `site.status`).
  - `ProcessQueue`, `UpdateQueue` and `ClearOldFinishedTasks` are its
    methods.
  - `ProcessQueue` is also split into steps: `BeginDrain` raises the
    running flag, `StartJob` and `FinishJob` surround the handler's
    `await`, and `EndDrain` lowers the flag. A caller can run
    `UpdateQueue` between `StartJob` and `FinishJob`, which is the update
    that arrives during a drain.
  - A ghost trace records the order in which the handlers ran.
- `Url` (src/util/url.js): the `http://`/`https://` gate.
- `Video` (src/commands/video.js): the YouTube id regex, the Bilibili id
  extraction and the `commandVideo` dispatch.
- `Music` (src/commands/music.js): `songUrlToId`, the playlist command
  and the music download command.
- `SpecialDownload` (src/commands/special_download.js): the `commandMedia`
  classifier chain.
- `Preview` (src/commands/preview.js): the user agent choice and the
  preview object.
- `Youtube`, `Bilibili`, `Reddit`, `Twitter`, `SoundCloud`, `Newgrounds`,
  `Pixiv` (src/commands/downloader/): each site's URL classifier, the ids
  it extracts and the pure parts of its page building.
- `VideoPage`: the part the YouTube and Bilibili pages share.
- `TwitterApi` (src/util/twitter.js): the URL rewrite and the media
  mapping.
- `Ytdlp` (src/util/ytdlp.js): the yt-dlp argument lists and the metadata
  row.
- `RenderWait` (src/node_save/puppeteer_util.js): the render-settling
  loop.
- `SavePage` (src/node_save/nodeSavePageWE.js): the poll for the saved
  page and its escaping into a `srcdoc` attribute.
- Helper modules:
  - `Js` holds the JavaScript values, truthiness and `Result` used for
    throwing.
  - `Text` holds the string operations: `split`, `indexOf`, `replace`,
    `toLowerCase` on ASCII, number formatting.
  - `FileNames` holds the counter naming `<stem><n>.<ext>` shared by the
    downloaders. Twitter and pixiv use the stem `<id>-`, giving
    `<id>-<n>.<ext>`. The reddit gallery uses `<id>-img`, giving
    `<id>-img<n>.<ext>`.
  - `AudioBackup` holds the audio backup page of the SoundCloud and
    Newgrounds downloaders.

Where the source is a regular expression, the model states the match
directly on positions of the string. Each such function carries lemmas
that tie it to the pattern's meaning.

The queue is modelled as the code has it:
- There is one in-memory FIFO, filled by `updateQueue` in the order of the
  database query (priority first, then age), with ids deduplicated by
  `queueAlreadyAdded`.
- A command with no handler ends as `completed`, because the fallback
  only logs.
- A handler that throws ends as `errored`.
- `clearOldFinishedTasks` drops finished rows more than an hour old.

The service's design describes more than src/server.js does, and the
model follows the code:
- The design has two lanes, so that previews are never stuck behind slow
  downloads. The code has a single queue.
- The design has an error-fallback handler per command. The code has
  none.
- The design marks a job with no handler as `errored`. The code ends it
  as `completed`.
- The design sweeps away jobs stuck in `processing`. The code has no
  such sweep.

Where a source function calls an `async` classifier without `await`, the
promise is truthy. The model keeps that reading and states its effect as
a finding below.

## Model

| member | source | states |
|---|---|---|
| Server.LookupTable | src/server.js:20-27 | Only `pin_preview`, `pdf`, `html` and `media` find a handler of their own; every other name gets the logging no-op, and only `media` gets the empty handler. |
| Server.DrainTrace | src/server.js:37-64 | A drain makes exactly four effects per job. |
| Server.MarkProcessing | src/server.js:42-43 | The status update touches only the row with the job's id, sets it to `processing`, and neither adds nor removes rows. |
| Server.MarkFinished | src/server.js:57-63 | The terminal update touches only the job's row: `errored` if the handler threw, `completed` otherwise, with the finishing time; no row is added or removed. |
| Server.StatusAfterSnoc | src/server.js:37-64 | Draining one more job applies that job's two status writes after those of the jobs before it. |
| Server.DrainTraceSnoc | src/server.js:37-64 | The trace of one more job extends the trace of the jobs before it. |
| Server.DrainStep | src/server.js:37-64 | One turn of the loop moves the queue table, the status table and the trace from the state after `done` to the state after `done + [row]`. |
| Server.IdsSnoc | src/server.js:76 | Pushing a row adds exactly its id to the ids of the queue. |
| Server.PushKeepsDistinct | src/server.js:74-76 | Pushing a row whose id is not queued keeps the queue free of repeated ids. |
| Server.IdsTail | src/server.js:38 | Shifting the head of a queue of distinct ids removes exactly the head's id. |
| Server.IdsCons | src/server.js:73-77 | The ids of a row followed by a sequence are its id plus the sequence's ids. |
| Server.NewRowsFresh | src/server.js:73-77 | Every row a load pushes is one of the loaded rows, and its id was not yet in `queueAlreadyAdded`. |
| Server.NewRowsDistinct | src/server.js:73-77 | No load pushes the same id twice, even when the query returns it twice. |
| Server.NewRowsIds | src/server.js:73-77 | After a load every loaded id is in `queueAlreadyAdded`: pushed now or already there. |
| Server.NewRowsConcat | src/server.js:73-77 | Loading `a + b` pushes what loading `a` pushes, then what loading `b` pushes given `a`'s ids. |
| Server.NewRowsKeepLoadOrder | src/server.js:70-77 | Rows loaded in `priority desc, created asc` order are pushed in that order. |
| Server.DrainTraceAt | src/server.js:37-64 | Job `i` of a drain makes effects `4i` to `4i+3`: it is marked `processing`, then its handler runs, then its queue row is deleted, then its terminal status is written, all before job `i+1` starts. |
| Server.DrainStatus | src/server.js:42-63 | After draining distinct jobs the status table has the same ids. The row of job `i` ends `errored` exactly when its handler threw, else `completed`, finished at the drain's `i`-th time. Rows of other ids are untouched. |
| Server.NoopCommandsComplete | src/server.js:24-26 | A `media` job, or one whose name has no handler, always ends `completed`. |
| Server.Retained | src/server.js:82-84 | The janitor keeps exactly the rows that are not terminal-and-finished-more-than-an-hour-ago, unchanged. |
| Server.RetainedIdempotent | src/server.js:82-84 | Clearing twice at the same time deletes nothing more than clearing once. |
| Server.DrainedJobRetainedForAnHour | src/server.js:57-63 | A drained job's status row survives every clear up to one hour after it finished, and no clear after that. |
| Server.ActiveRowsRetained | src/server.js:83 | A row that is neither `errored` nor `completed` survives every clear unchanged. |
| Server.EnqueueStep | src/server.js:73-77 | One turn of the load loop pushes the row exactly when its id is new, and adds its id to `queueAlreadyAdded`. |
| Server.EnqueueKeepsState | src/server.js:73-77 | A load keeps the invariant: `queueAlreadyAdded` holds exactly the ids queued or in flight, each once. |
| Server.Dispatcher.constructor | src/server.js:15-17 | The dispatcher starts with an empty queue, no drain running, no ids added, and the tables as given. |
| Server.Dispatcher.Enqueue | src/server.js:73-77 | The queue grows by the new rows in load order. `queueAlreadyAdded` grows by the loaded ids. Nothing else changes. |
| Server.Dispatcher.StartJob | src/server.js:38-43 | The head leaves the queue and becomes the job in flight, and its status row is marked `processing`. The invariant holds. |
| Server.Dispatcher.FinishJob | src/server.js:46-63 | The job in flight runs, its id is released, its queue row is deleted and its terminal status is written. The invariant holds. |
| Server.Dispatcher.RunJob | src/server.js:38-63 | One turn of the loop leaves the tables as `JobStatus` says for the head job and appends that job's four effects. |
| Server.Dispatcher.Drain | src/server.js:37-64 | The loop empties the queue. It deletes every drained job's queue row, leaves the status table as draining the jobs in order says, and appends their effects in order. |
| Server.Dispatcher.ProcessQueue | src/server.js:34-66 | A call while a drain is running changes nothing. Otherwise the whole queue is drained, every id is released and the flag is cleared. |
| Server.Dispatcher.BeginDrain | src/server.js:35-36 | Past the guard, the flag is raised and nothing else changes. The invariant holds. |
| Server.Dispatcher.EndDrain | src/server.js:37-65 | Once the loop finds the queue empty, the flag is lowered. No id is still held and nothing else changes. |
| Server.Dispatcher.UpdateQueue | src/server.js:69-79 | An empty load changes nothing. During a drain the new rows join the queue for the running drain to reach. Otherwise the old queue plus the new rows are drained in order. |
| Server.Dispatcher.ClearOldFinishedTasks | src/server.js:82-84 | Only the status table changes, to the retained rows. |
| Server.InFlightNotRequeued | src/server.js:55-76 | While a job is in flight its id is still in `queueAlreadyAdded`, so a load in that window never queues it again. |
| Url.ValidateUrl | src/util/url.js:6-9 | The only error thrown is `URL is not allowed`. |
| Url.ValidateUrlAdmits | src/util/url.js:7-8 | The gate admits exactly the strings starting with `http://` or `https://`, and refuses every other one with `URL is not allowed`. |
| Url.ValidateUrlIgnoresRest | src/util/url.js:7 | Nothing after the scheme is inspected. |
| Url.ValidateUrlCaseSensitive | src/util/url.js:7 | An upper-case scheme is refused. |
| Video.LineEnd | src/commands/video.js:12 | `.*` stops at the first line terminator. |
| Video.YoutubeMarkerAt | src/commands/video.js:12 | A marker of the id pattern ends in `/` or `=` inside the string. |
| Video.LastYoutubeMarker | src/commands/video.js:12 | Greedy `^.*` picks the last marker position on the first line. |
| Video.IdRun | src/commands/video.js:12 | `[^#&?]*` captures exactly the characters other than `#`, `&` and `?`. Line breaks are captured too. |
| Video.GetYoutubeId | src/commands/video.js:11-14 | The id holds no `#`, `&` or `?`. It may hold line breaks, which the class `[^#&?]` admits. |
| Video.GetYoutubeIdSpec | src/commands/video.js:12-13 | Without a marker the id is `''`; otherwise it is the run after the last marker. |
| Video.YoutubeIdHasNoHash | src/commands/video.js:12 | No extracted id contains `#`, so the `yt#<id>` key splits back cleanly. |
| Video.NoMarkerBeforeIdChars | src/commands/video.js:12 | No marker starts inside a run of plain id characters. |
| Video.FirstBilibiliMatch | src/commands/video.js:27 | The unanchored regex matches at the leftmost position where `http(s)://www.bilibili.com/video/` is followed by an id character. None is found only when no position matches. |
| Video.FirstPieceBeforeChar | src/commands/video.js:23 | Cutting at `&bvid=` and then at `&` is cutting at the first `&`. |
| Video.BilibiliListBranch | src/commands/video.js:22-24 | A `/list/` URL without `&bvid=` throws a TypeError. Otherwise its id is the text after the first `&bvid=` up to the next `&`. |
| Video.BilibiliListIdHasNoAmpersand | src/commands/video.js:23 | The `/list/` id never contains `&`. |
| Video.BilibiliVideoBranch | src/commands/video.js:27-28 | Without `/list/` the extraction never throws. It is `''` exactly when the pattern matches nowhere, and the id is made of `[A-Za-z0-9-_]`. |
| Video.CommandVideo | src/commands/video.js:37-57 | Every accepted job has a non-empty id and the key `yt#<id>` or `bilibili#<id>`. |
| Video.CommandVideoDecision | src/commands/video.js:38-57 | The URL gate comes first and YouTube is tried before Bilibili. The error `Could not find youtube or bilibili ID` is thrown exactly when both extractors come back empty. |
| Video.YoutubeKeySplits | src/commands/video.js:44 | The YouTube key splits at `#` into `yt` and the id. |
| Music.SongUrlToId | src/commands/music.js:19-31 | As written, every id is tagged, and a URL none of YouTube, Bilibili or SoundCloud claims becomes `newgrounds#<last path piece>`. |
| Music.SongUrlToIdAwaited | src/commands/music.js:19-31 | With the Newgrounds test awaited, the result is tagged or `unknown`: a URL no site claims is `unknown`. |
| Music.UnclaimedSongDiffers | src/commands/music.js:28-30 | On every URL no site claims, the two readings differ: `newgrounds#…` against `unknown`. |
| Music.UnclaimedUrl | src/commands/music.js:22-28 | `https://e.io/a` is claimed by no music site. |
| Music.UnclaimedSongIsNewgrounds | src/commands/music.js:28 | Concrete input: `https://e.io/a` is stored as `newgrounds#a` instead of `unknown`. |
| Music.KeepUrl | src/commands/music.js:41-42 | As written, the filter keeps every URL, because the promise on the left is truthy. |
| Music.KeepUrlAwaited | src/commands/music.js:41-42 | Awaited, a URL is dropped exactly when no classifier claims it. |
| Music.FilterUrls | src/commands/music.js:41-42 | `filter` throws exactly when the test throws on some URL. Otherwise it keeps exactly the URLs the test accepts. |
| Music.FilterUrlsConcat | src/commands/music.js:41-42 | `filter` keeps order and repeats: filtering `a + b` gives the kept URLs of `a`, then those of `b`, and throws exactly when one of the halves does. |
| Music.FilterUrlsOne | src/commands/music.js:41-42 | A single URL is kept exactly when the test accepts it, and the filter throws with the test's error. |
| Music.SongsFromKeptUrls | src/commands/music.js:41-43 | Every song id is the id of a URL the filter kept. |
| Music.FilterKeepsAll | src/commands/music.js:41-42 | A filter whose test accepts every URL returns the list unchanged. |
| Music.MapIds | src/commands/music.js:43 | `map` throws exactly when some id throws. Otherwise position `i` holds the id of URL `i`. |
| Music.AddToPlaylist | src/commands/music.js:39-55 | The playlist is the first comma field. There is one queued `music_download` status row per song id, in order, with priority -1. |
| Music.CommandAddMusicToPlaylist | src/commands/music.js:38-57 | As written, every field after the first becomes a song, with the id `songUrlToId` gives it, and it throws exactly when some id throws. |
| Music.CommandAddMusicToPlaylistAwaited | src/commands/music.js:38-57 | Awaited, the songs are exactly the awaited ids of the URLs some classifier claims. |
| Music.UnclaimedPlaylistSong | src/commands/music.js:41-43 | A playlist holding one URL of no music site gains a `newgrounds#` song as written, and nothing awaited. |
| Music.CommandDownloadMusic | src/commands/music.js:64-77 | A `yt` tag downloads from YouTube, a `bilibili` tag from Bilibili, and any other tag does nothing. The id is the text after `#` and the folder is `<fileDir>/videos/<data>`. |
| Music.YoutubeSongRoundTrip | src/commands/music.js:65-70 | A YouTube song's stored id is read back as a YouTube download of the same id. |
| Music.OtherSongsDoNothing | src/commands/music.js:74-76 | Stored `soundcloud#` and `newgrounds#` songs are never downloaded. |
| SpecialDownload.CommandMedia | src/commands/special_download.js:18-34 | As written, a refused URL throws, and every admitted URL goes to imgur (exactly when `isImgur` says so) or to Newgrounds. |
| SpecialDownload.CommandMediaAwaited | src/commands/special_download.js:18-34 | Awaited, a job goes to the first site in chain order whose classifier claims the URL. It is saved as HTML exactly when none does. |
| SpecialDownload.PlainPageMediaDiffers | src/commands/special_download.js:22-23 | On every admitted URL that is neither imgur nor a Newgrounds listen page, the two readings differ. |
| SpecialDownload.PlainPageMediaUrl | src/commands/special_download.js:19-31 | `https://e.io/a` passes the gate and is claimed by no downloader. |
| SpecialDownload.PlainPagePageGoesToNewgrounds | src/commands/special_download.js:22-33 | Concrete input: a plain page goes to the Newgrounds downloader instead of being saved as HTML. |
| Preview.UserAgent | src/commands/preview.js:16-17 | It throws exactly when the URL has no `//`. Otherwise the agent is `Twitterbot/1.1` exactly when the text after the first `//` starts with `twitter.com`, and Chrome otherwise. |
| Preview.PieceStartsWith | src/commands/preview.js:16 | The first piece of a split starts with `t` exactly when the string does, if `t` lacks the separator's first character. |
| Preview.ImageOf | src/commands/preview.js:29 | No image gives `''`. An array of one or more objects gives the first object's `url`. An empty array gives `undefined`. |
| Preview.DownloadPreview | src/commands/preview.js:10-33 | A scraper error gives `{error: true}`. Otherwise the title falls back to the site name, the description falls back to `No description provided` (so it is always truthy), and the image is as `ImageOf` says. |
| Preview.TwitterLinksUseBotAgent | src/commands/preview.js:15-17 | Every `<scheme>//twitter.com…` link is fetched as Twitter's bot. |
| Youtube.IsYoutube | src/commands/downloader/youtube.js:14-21 | The result is `false` or the id of the lower-cased URL. |
| Youtube.IsYoutubeTruthy | src/commands/downloader/youtube.js:15-20 | A URL is YouTube exactly when an accepted prefix matches the lower-cased URL with one trailing `/` removed and that URL yields an id. |
| Youtube.IsYoutubeIdLowerCase | src/commands/downloader/youtube.js:16-20 | The id `isYoutube` returns holds no upper-case letter. |
| Youtube.IdCharsFromUrl | src/commands/video.js:12 | Every character of an extracted id occurs in the URL. |
| Youtube.IdRunChars | src/commands/video.js:12 | Every character of a captured run occurs in the URL. |
| Youtube.RejectedPrefixes | src/commands/downloader/youtube.js:17-19 | `http://` URLs and `/shorts/` and `/embed/` paths carry no accepted prefix. |
| Youtube.IsYoutubeRejects | src/commands/downloader/youtube.js:15-20 | So `isYoutube` refuses them, whatever follows. |
| Youtube.PageKeyDecodes | src/commands/downloader/youtube.js:33-34 | Decoding `%23` in the page's folder key gives the key `commandVideo` stored the video under. |
| Youtube.DownloadYoutubePage | src/commands/downloader/youtube.js:99-128 | The page's video source is `/files/videos/yt%23<id>/<file>`. |
| Bilibili.IsBilibili | src/commands/downloader/bilibili.js:14-19 | It throws only for an accepted prefix on a `/list/` URL. Otherwise the result is `false` or an id string. |
| Bilibili.IsBilibiliTruthy | src/commands/downloader/bilibili.js:15-18 | A URL is Bilibili exactly when an accepted prefix matches and the lower-cased URL yields a non-empty id. It throws exactly when the extraction throws. |
| Bilibili.NonWwwPasses | src/commands/downloader/bilibili.js:17-18 | A `https://bilibili.com/video/` URL passes only through the `/list/` branch or a `www.` URL embedded later in it. |
| Bilibili.NoMatchAtStart | src/commands/video.js:27 | The id pattern cannot match at the start of a URL without `www.`. |
| Bilibili.PageKey | src/commands/downloader/bilibili.js:31 | The folder key exists exactly when the id extraction does not throw. |
| Bilibili.PageKeyDecodes | src/commands/downloader/bilibili.js:31-32 | Decoding `%23` in the page key gives the key `commandVideo` stored the video under. |
| Bilibili.DownloadBilibiliPage | src/commands/downloader/bilibili.js:104-130 | The page's video source is `/files/videos/bilibili%23<id>/<file>`. |
| VideoPage.SourceType | src/commands/downloader/youtube.js:101 | The MIME type is `video/` plus a dot-free suffix of the file name. |
| VideoPage.TrackFor | src/commands/downloader/youtube.js:102-107 | A track exists exactly when the name has a second `.`-piece. Its language is that piece, its label is the piece in upper case, its source is in the video's folder, and it is the default exactly at position 0. |
| VideoPage.TracksFrom | src/commands/downloader/youtube.js:102-107 | Mapping throws exactly when some name lacks a `.`. Otherwise there is one track per file, in order. |
| VideoPage.TracksShape | src/commands/downloader/bilibili.js:113-118 | Only the first track is the default, and every track points into the video's folder. |
| VideoPage.SubsNameSplits | src/util/ytdlp.js:72 | A `subs.` name always has a second piece. |
| VideoPage.SubtitleFilesMakeTracks | src/util/ytdlp.js:72 | The subtitle files `addVideoMetaToDb` lists never make the track mapping throw. |
| VideoPage.TrackLanguage | src/commands/downloader/youtube.js:103-105 | `subs.<lang>.<ext>` gives a track in language `<lang>`. |
| VideoPage.TagsText | src/commands/downloader/youtube.js:124 | No tags, or one empty tag, give `None`. Otherwise the text is the non-empty `, `-join. |
| VideoPage.PageView | src/commands/downloader/bilibili.js:112-127 | The page is built exactly when the tracks are, from the file, its type, the tracks and the tag line. |
| Ytdlp.YoutubeMediaArgs | src/util/ytdlp.js:16-26 | The first YouTube run downloads `https://www.youtube.com/watch?v=<id>` with thumbnail and info JSON to `<dest>/output.%(ext)s`. |
| Ytdlp.YoutubeSubtitleArgs | src/util/ytdlp.js:27-34 | The second YouTube run fetches every subtitle language except the live chat, skips the media, and writes to `<dest>/subs.%(ext)s`. |
| Ytdlp.BilibiliMediaArgs | src/util/ytdlp.js:42-53 | The Bilibili run downloads `https://www.bilibili.com/video/<id>` with info JSON to `<dest>/output.%(ext)s`. |
| Ytdlp.RunReachesEnd | src/commands/video.js:12 | A run of accepted characters reaches the end of the string. |
| Ytdlp.WatchUrlIsOneLine | src/util/ytdlp.js:16 | The watch URL of a plain id is one line. |
| Ytdlp.WatchUrlMarkers | src/util/ytdlp.js:16 | In the watch URL the last marker is the `?v=` at index 29. |
| Ytdlp.YoutubeWatchUrlRoundTrip | src/util/ytdlp.js:16 | `getYoutubeId` recovers a plain id from the URL `downloadYoutube` builds. |
| Ytdlp.VideoUrlHasNoList | src/util/ytdlp.js:43 | The Bilibili URL of a plain id holds no `/list/`. |
| Ytdlp.NoSlashThenL | src/util/ytdlp.js:43 | In the Bilibili prefix no `/` is followed by `l`. |
| Ytdlp.BilibiliVideoUrlRoundTrip | src/util/ytdlp.js:43 | `getBilibiliId` recovers a non-empty plain id from the URL `downloadBilibili` builds. |
| Ytdlp.FirstWithExtension | src/util/ytdlp.js:67-71 | A non-empty choice is the first listed name that passes the filter. If any name passes, the choice passes. |
| Ytdlp.EmptyNameNotListed | src/util/ytdlp.js:67-71 | An empty name never passes, so `''` means nothing was found. |
| Ytdlp.VideoFileEmpty | src/util/ytdlp.js:67-71 | The thumbnail or video file is `''` exactly when no name passes its filter. |
| Ytdlp.SubtitleFiles | src/util/ytdlp.js:72 | The subtitle files are exactly the listed names starting with `subs.`. |
| Ytdlp.SubtitleFilesConcat | src/util/ytdlp.js:72 | `filter` keeps the listing order: the subtitles of `a + b` are those of `a`, then those of `b`. This order decides which track is the default. |
| Ytdlp.SubtitleFilesOne | src/util/ytdlp.js:72 | A single name is kept exactly when it starts with `subs.`. |
| Ytdlp.UploadTimeOf | src/util/ytdlp.js:74-76 | The only error is the TypeError of a missing or non-string `upload_date`. |
| Ytdlp.UploadTimePrecedence | src/util/ytdlp.js:74-76 | `timestamp` wins over `release_timestamp`, which wins over `upload_date`. Without either timestamp, it throws exactly when `upload_date` is not a string. |
| Ytdlp.EpochSecondsToMs | src/util/ytdlp.js:75 | Whole seconds become a `Date` at the same instant in milliseconds. |
| Ytdlp.UploadDateFields | src/util/ytdlp.js:76 | `YYYYMMDD` becomes the year, the month less one, and the day. |
| Ytdlp.ParamsAt | src/util/ytdlp.js:78-95 | There are 16 parameters: the id first and the upload time fifth. |
| Ytdlp.MetaParams | src/util/ytdlp.js:74-95 | The row exists exactly when the upload time does. |
| Ytdlp.MetaDefaults | src/util/ytdlp.js:79-93 | Falsy fields fall back to `Unknown id`, `''`, `No description provided`, 0 or `[]`, and truthy ones are kept. Uploader, title, duration and size pass through. |
| Ytdlp.PageReadsFiles | src/util/ytdlp.js:93-94 | `meta.at(-2)` is the chosen video file and `meta.at(-1)` the subtitle files, as the pages read them. |
| Ytdlp.InsertMeta | src/util/ytdlp.js:97-102 | `ON CONFLICT (id) DO NOTHING`: an existing id keeps its row, and a new id gets the new row. |
| Ytdlp.InsertMetaIdempotent | src/util/ytdlp.js:97-102 | Storing the same video twice leaves the table as the first store did. |
| Ytdlp.AddVideoMetaToDb | src/util/ytdlp.js:63-105 | It succeeds exactly when the upload time does, and returns the 16 parameters. The table gains the row unless the id is already there. |
| RenderWait.MaxSamples | src/node_save/puppeteer_util.js:12-18 | `checkCounts++ <= timeout / 1000` runs the body once per whole second of the timeout, and never for a negative one. |
| RenderWait.StableCount | src/node_save/puppeteer_util.js:21-24 | The counter never exceeds the number of samples. |
| RenderWait.StableCountSettles | src/node_save/puppeteer_util.js:21-26 | The counter reaches 3 exactly at the fourth sample in a row with the same non-zero length. |
| RenderWait.ZeroLengthResets | src/node_save/puppeteer_util.js:21 | An empty page never counts as stable. |
| RenderWait.WaitTillHtmlRendered | src/node_save/puppeteer_util.js:10-31 | It leaves early exactly when the length settles within the allowed samples, at the first such sample. It waits one second after each unsettled sample, and takes all the samples when the length never settles. |
| SavePage.PollSavedPage | src/node_save/nodeSavePageWE.js:38-47 | It returns the first poll that is not `NONE`, after sleeping 100 ms per `NONE`. |
| SavePage.Escape | src/node_save/nodeSavePageWE.js:51 | The escaped page holds no `"`. |
| SavePage.EscapeCons | src/node_save/nodeSavePageWE.js:51 | The two global replaces escape character by character. |
| SavePage.DecodeOther | src/node_save/nodeSavePageWE.js:58 | In an attribute value, a character other than `&` reads as itself. |
| SavePage.DecodePlain | src/node_save/nodeSavePageWE.js:58 | Text without `&` reads back as itself. |
| SavePage.DecodeEscapeChar | src/node_save/nodeSavePageWE.js:51 | One escaped character reads back with its `&` as `&amp;`. |
| SavePage.DecodeAmp | src/node_save/nodeSavePageWE.js:51 | `&amp;amp;` reads back as `&amp;`. |
| SavePage.EscapeDecodes | src/node_save/nodeSavePageWE.js:51-58 | The iframe's document is the saved page with every `&` written as `&amp;`: the double escape survives one round of decoding. |
| SavePage.EscapeSingle | src/node_save/nodeSavePageWE.js:51 | A lone `"` becomes `&quot;`, and the `&` it introduces is not escaped again. |
| SavePage.EscapePlainChars | src/node_save/nodeSavePageWE.js:51 | Text with neither `&` nor `"` is unchanged. |
| SavePage.EscapeOnce | src/node_save/nodeSavePageWE.js:51 | The single escape leaves no `"` in the attribute value. |
| SavePage.EscapeOnceCons | src/node_save/nodeSavePageWE.js:51 | The single escape works character by character. |
| SavePage.DecodeEscapeOnceChar | src/node_save/nodeSavePageWE.js:51 | One character escaped once reads back as itself. |
| SavePage.EscapeOnceDecodes | src/node_save/nodeSavePageWE.js:51-58 | Escaped once, the page reaches the iframe unchanged. |
| SavePage.EntityDoubled | src/node_save/nodeSavePageWE.js:51 | The page `&lt;` reaches the iframe as `&amp;lt;` as written, and as `&lt;` escaped once. |
| SavePage.SrcdocValue | src/node_save/nodeSavePageWE.js:52-59 | The `srcdoc` value, from the head to the next `"`, is exactly the escaped page: nothing in the page can close the attribute. |
| SavePage.AttributeValue | src/node_save/nodeSavePageWE.js:58 | A quote-free value between a head and `"` is read back whole. |
| SavePage.Scrape | src/node_save/nodeSavePageWE.js:25-64 | It writes one file at `task.path` and then closes the browser. The file is the wrapped, escaped, sanitised output of the first poll that is not `NONE`. |
| Reddit.IsRedditPostIsRegex | src/commands/downloader/reddit.js:73-75 | Deciding from the first `/comments/` after the subreddit is exactly the post regex: three non-empty lazy runs, a closing `/`, and no line break. |
| Reddit.PostUrlPasses | src/commands/downloader/reddit.js:74 | Every `https://www.reddit.com/r/<sub>/comments/<post>/<slug>/` with non-empty parts and no line break passes. |
| Reddit.IsRedditCommentIsRegex | src/commands/downloader/reddit.js:82-84 | Deciding from the first `/comments/` and the first `/comment/` after it is exactly the comment regex. |
| Reddit.CommentUrlIsPostUrl | src/commands/downloader/reddit.js:74-83 | A comment URL ending in `/` also passes the post test, so a chain that asks `isRedditPost` first sends it to the post downloader. |
| Reddit.PostThingId | src/commands/downloader/reddit.js:93-95 | For a post link the API is asked for `t3_<post id>`. |
| Reddit.CommentThingId | src/commands/downloader/reddit.js:188-190 | For a comment link, with or without the trailing `/`, the API is asked for `t1_<comment id>`. |
| Reddit.AuthorName | src/commands/downloader/reddit.js:154 | The author shown is never empty: the author when there is one, else `[deleted]`. |
| Reddit.GalleryEntryHtml | src/commands/downloader/reddit.js:117-119 | An image without caption is just its tag. With a caption, the tag is followed by a paragraph ending in the caption. |
| Reddit.Gallery | src/commands/downloader/reddit.js:110-121 | The loop throws only the TypeError of missing metadata, and on success saves one image per item. |
| Reddit.GalleryEntry | src/commands/downloader/reddit.js:112-119 | An item succeeds exactly when its media id has metadata. The image is saved from its unescaped source URL. |
| Reddit.GalleryOk | src/commands/downloader/reddit.js:110-121 | The gallery succeeds exactly when every item's media id has metadata. |
| Reddit.GalleryThrowsAt | src/commands/downloader/reddit.js:112 | A failing gallery has an item without metadata. |
| Reddit.GalleryFiles | src/commands/downloader/reddit.js:112-116 | Image `i` is saved from its unescaped source URL as `<id>-img<i>.<ext>`, with `<ext>` the MIME type's last `/`-piece. |
| Reddit.GalleryNamesDistinct | src/commands/downloader/reddit.js:114-120 | No two gallery images share a file name. |
| Reddit.GalleryThrowsFrom | src/commands/downloader/reddit.js:111-112 | Once an item lacks metadata, the whole gallery throws. |
| Reddit.BuildGallery | src/commands/downloader/reddit.js:110-121 | The loop computes exactly the gallery: its markup and its downloads, or the TypeError. |
| Reddit.DirectImage | src/commands/downloader/reddit.js:124-138 | A direct link is saved as `<id>-img.<ext>` exactly when its extension before `?` is an image extension and neither `https.get` nor `pipe` throws. Otherwise the error is swallowed and there is no media. |
| Reddit.DirectLinkNeverSaved | src/commands/downloader/reddit.js:133-134 | With `pipe` throwing on the request object, as it does, a post whose only media is a direct link gets no media. |
| Reddit.PngLinkExt | src/commands/downloader/reddit.js:126-129 | `https://i.example.com/a.png` has the image extension `png`. |
| Reddit.ImageLinkDropped | src/commands/downloader/reddit.js:124-138 | A direct image link gets no media as written, and the image `<id>-img.<ext>` when the response is piped in a callback. |
| Reddit.HttpLinkNotSaved | src/commands/downloader/reddit.js:133 | An `http:` link is never saved, because `https.get` refuses it. |
| Reddit.PostMedia | src/commands/downloader/reddit.js:101-138 | The order is video, then gallery, then embed, then direct image. Only the gallery can throw. A post with none of the first three gets exactly what the direct link gives. |
| Reddit.NsfwLabel | src/commands/downloader/reddit.js:157 | The `x === 'NSFW'` test picks out exactly the NSFW badge. |
| Reddit.BadgesInOrder | src/commands/downloader/reddit.js:140-144 | There is one badge per set flag, in the order EDITED, PINNED, NSFW, LOCKED. |
| Reddit.CollectBadges | src/commands/downloader/reddit.js:140-144 | The `push` calls build exactly the badge list of the post's flags. |
| Reddit.BadgeParagraph | src/commands/downloader/reddit.js:156-157 | There is no paragraph without badges. Otherwise there is one span per badge in order, and only NSFW is marked. |
| Reddit.DownloadRedditPost | src/commands/downloader/reddit.js:92-179 | It asks the API for the post's `t3_` id. It succeeds exactly when the media does, and fails with the media's error otherwise. The page is written to `<dest>/<id>.html`. Its badges are the paragraph of the post's flags, in order. It keeps the post's body and spoiler flag. |
| Reddit.DownloadRedditComment | src/commands/downloader/reddit.js:187-214 | It asks the API for the comment's `t1_` id and writes `<dest>/<id>.html` with the author and the body. |
| Twitter.TweetTailIsRegex | src/commands/downloader/twitter.js:16 | Reading `\d+\?*[A-Za-z0-9=_-]*$` greedily decides exactly what some split into digits, question marks and query characters decides. |
| Twitter.StatusUrlPasses | src/commands/downloader/twitter.js:14-17 | Every `https://twitter.com/<user>/status/<digits><?…><query>` link passes, with or without one trailing `/`. |
| Twitter.TweetUrlUsesApi | src/util/twitter.js:19-20 | A link `isTwitter` accepts is one `getTwitterMedia` accepts, and its request goes to `https://api.vxtwitter.com/` plus the same path. |
| Twitter.HostLiteral | src/commands/downloader/twitter.js:16 | The host part of the accepted prefix is `//twitter.com`, with no `/` before it. |
| Twitter.VideoTag | src/commands/downloader/twitter.js:40 | A video item's markup is a `<video controls>` element that refers to its file. |
| Twitter.MediaMarkup | src/commands/downloader/twitter.js:37-40 | `image` gives an `<img>`, `video` gives a `<video>`, and any other type gives nothing. |
| Twitter.TweetMedia | src/commands/downloader/twitter.js:31-42 | The loop throws only a TypeError, and on success saves one file per item. |
| Twitter.MediaItem | src/commands/downloader/twitter.js:33-35 | An item succeeds exactly when its URL is a string. It is saved from that URL as `<id>-<i>.<ext>`. |
| Twitter.TweetMediaOk | src/commands/downloader/twitter.js:32-33 | The loop succeeds exactly when every item's URL is a string. |
| Twitter.TweetMediaThrowsAt | src/commands/downloader/twitter.js:33 | A failing loop has an item whose URL is not a string. |
| Twitter.TweetMediaFiles | src/commands/downloader/twitter.js:33-35 | Item `i` is saved from its URL as `<id>-<i>.<ext>`, with `<ext>` the last `.`-piece before `?`. |
| Twitter.TweetMediaNamesDistinct | src/commands/downloader/twitter.js:34-41 | No two items share a file name. |
| Twitter.UntypedMediaNoMarkup | src/commands/downloader/twitter.js:37-41 | Items that are neither images nor videos add no markup, though each still takes a counter value. |
| Twitter.TweetMediaThrowsFrom | src/commands/downloader/twitter.js:32-33 | Once an item's URL is not a string, the whole loop throws. |
| Twitter.MediaLoop | src/commands/downloader/twitter.js:31-42 | The loop computes exactly the markup and downloads `TweetMedia` describes, or its error. |
| Twitter.DownloadTwitter | src/commands/downloader/twitter.js:25-84 | An error of the fetch propagates with its message, and a not-found answer fails with a TypeError in the loop. When media were found, it succeeds exactly when the media loop does, and otherwise fails with the loop's error. On success the page holds the loop's media and the escaped, linkified text, and is written to `<dest>/<id>.html`. |
| TwitterApi.InputObject.constructor | src/util/twitter.js:10 | A fresh input object holds the given properties. |
| TwitterApi.CopyOptions | src/util/twitter.js:17 | Every option is written onto the input, overriding what was there. |
| TwitterApi.Restrict | src/util/twitter.js:17 | The options copied so far are exactly those among the keys done, with their values. |
| TwitterApi.OverrideStep | src/util/twitter.js:17 | Writing one more key is overriding with one more option. |
| TwitterApi.RestrictAll | src/util/twitter.js:17 | Once every key is written, all the options are. |
| TwitterApi.LiteralHostMentions | src/util/twitter.js:19 | A literal `//twitter.com` anywhere passes the URL test. |
| TwitterApi.ApiUrlRewritesHost | src/util/twitter.js:20 | The host after the scheme is the one rewritten to `//api.vxtwitter.com`. |
| TwitterApi.EntryRef | src/util/twitter.js:28 | An entry maps to its `url` and `type`, or to `undefined` for both when it is not an object, and carries no buffer. |
| TwitterApi.MediaRefs | src/util/twitter.js:28 | The mapping throws a TypeError exactly when some entry is `null` or `undefined`. Otherwise it maps each entry in order. |
| TwitterApi.MapResponse | src/util/twitter.js:22-36 | A `null` or `undefined` body throws. A body without truthy `media_extended` is `No media found`. A found result carries the mapped media, the author fields, and the text exactly when it was asked for. |
| TwitterApi.FailedRequestFindsNothing | src/util/twitter.js:22-25 | A failed request always ends as `No media found`. |
| TwitterApi.WithBuffers | src/util/twitter.js:37-44 | Each entry keeps its URL and type and gets as buffer what fetching its URL gave. |
| TwitterApi.FetchBuffers | src/util/twitter.js:37-44 | The loop fetches one buffer per entry, in order. |
| TwitterApi.Answer | src/util/twitter.js:19-47 | A URL failing the test is `Invalid URL: <url>`, and a failed request is `No media found`. A found answer carries text exactly when `text` is truthy, and buffers exactly when `buffer` is truthy. |
| TwitterApi.GetTwitterMedia | src/util/twitter.js:9-48 | `null` throws, and a non-string non-object is `Invalid first argument`. An object without a truthy `url` is `No URL provided` and is left alone. Otherwise the options are written into the caller's object or a fresh one, and the answer follows. |
| SoundCloud.SoundCloudUrlPasses | src/commands/downloader/soundcloud.js:14-17 | Every `https://soundcloud<c>com/<user>/<track>`, with `<c>` any character but a line break and with or without one trailing `/`, passes. |
| SoundCloud.SoundCloudTrack | src/commands/music.js:26-27 | For a URL that passes, the id `songUrlToId` stores is the track segment: non-empty and without `/`. |
| SoundCloud.DataUrlParses | src/commands/downloader/soundcloud.js:36-38 | The inlined thumbnail reads back as a data URL (section 2 of RFC 2397): the content type marked `;base64`, then after the first `,` exactly the encoded body. |
| SoundCloud.CommentBlocks | src/commands/downloader/soundcloud.js:152-159 | There is one block per comment, in order, and each block's text reads back to the comment's text. |
| SoundCloud.CommentSection | src/commands/downloader/soundcloud.js:150-160 | `No comments` appears exactly when there are none. Otherwise there is one block per comment. |
| SoundCloud.DownloadSoundCloud | src/commands/downloader/soundcloud.js:25-170 | The page plays the saved `<id>.mp3` and inlines the thumbnail as a data URL. Its description has no raw line break and reads back to the original, and its comments are as `CommentSection` says. |
| AudioBackup.SavedFiles | src/commands/downloader/soundcloud.js:31-169 | The audio `<dest>/<id>.mp3` and the page `<dest>/<id>.html` are different files, and the page's source is the audio. |
| FileNames.IndexedNamesDistinct | src/commands/downloader/twitter.js:34 | Names made with different counters differ, whatever their extensions. |
| FileNames.ExtBeforeQueryShape | src/commands/downloader/twitter.js:33 | The extension ends the URL's path part and holds neither `.` nor `?`. |
| Newgrounds.IsNewgrounds | src/commands/downloader/newgrounds.js:14-17 | The result is always a truthy promise, which settles to `true` exactly for a listen URL. |
| Newgrounds.ListenUrlPasses | src/commands/downloader/newgrounds.js:15-16 | `https://www.newgrounds.com/audio/listen/<digits>` passes, with or without a trailing `/`, and its last segment is the number. |
| Newgrounds.LazyMp3 | src/commands/downloader/newgrounds.js:31 | The lazy `.+?\.mp3` stops at the first `.mp3` that no line break comes before. |
| Newgrounds.SongMatchAt | src/commands/downloader/newgrounds.js:31 | A match at `i` is the escaped host, a non-empty run of digits, an escaped `/`, a name without line breaks, and `.mp3`. |
| Newgrounds.FirstSongMatch | src/commands/downloader/newgrounds.js:31 | `match` finds the leftmost position where the song regex matches, or none exists. |
| Newgrounds.SongUrl | src/commands/downloader/newgrounds.js:38-39 | The only error is `Failed to find song url`. |
| Newgrounds.SongUrlFails | src/commands/downloader/newgrounds.js:31-38 | The download throws exactly when the song regex matches nowhere in the page. |
| Newgrounds.SongUrlShape | src/commands/downloader/newgrounds.js:31-39 | The song URL is `https://audio.ngfiles.com/<digits>/<name>.mp3`, built from the leftmost match's digits and unescaped name. |
| Newgrounds.SongUrlOfMatch | src/commands/downloader/newgrounds.js:39 | The song URL is the leftmost match's text, unescaped. |
| Newgrounds.UnescapedMatch | src/commands/downloader/newgrounds.js:39 | Unescaping a match gives the plain host, the digits, `/`, the unescaped name and `.mp3`. |
| Newgrounds.SongUrlEnds | src/commands/downloader/newgrounds.js:39-41 | The URL fetched begins with `https://audio.ngfiles.com/` and ends in `.mp3`. |
| Newgrounds.UrlEnds | src/commands/downloader/newgrounds.js:39 | A URL assembled from host, digits, `/`, name and `.mp3` begins with the host and ends in `.mp3`. |
| Newgrounds.UnescapeSongUrl | src/commands/downloader/newgrounds.js:39 | Unescaping the escaped host, digits, `\/`, name and `.mp3` unescapes each part in turn. |
| Newgrounds.UnescapeAfterHost | src/commands/downloader/newgrounds.js:39 | After the host the digits stay, `\/` becomes `/`, and `.mp3` stays. |
| Newgrounds.HostInParts | src/commands/downloader/newgrounds.js:31 | The escaped host splits at its three escaped slashes. |
| Newgrounds.PlainHostInParts | src/commands/downloader/newgrounds.js:39 | The plain host reassembles from its parts. |
| Newgrounds.UnescapeAround | src/commands/downloader/newgrounds.js:39 | `p\/\/q\/x` unescapes to `p//q/` followed by the unescaped `x`, when `p` and `q` hold no backslash. |
| Newgrounds.CommentsMatchAt | src/commands/downloader/newgrounds.js:32 | The lazy group ends at the first `</p>` after at least one character. |
| Newgrounds.FirstCommentsMatch | src/commands/downloader/newgrounds.js:32 | `match` finds the leftmost comments match, or none exists. |
| Newgrounds.SongComments | src/commands/downloader/newgrounds.js:32-33 | The comments are the leftmost match's group, or `No comment provided`. |
| Newgrounds.TitleMatchAt | src/commands/downloader/newgrounds.js:35 | The lazy group ends at the first `</h2>` after at least one character. |
| Newgrounds.FirstTitleMatch | src/commands/downloader/newgrounds.js:35 | `match` finds the leftmost title match, or none exists. |
| Newgrounds.SongTitle | src/commands/downloader/newgrounds.js:35-36 | The title is the leftmost match's group, or `No title found`. |
| Newgrounds.DownloadNewgrounds | src/commands/downloader/newgrounds.js:25-108 | It throws `Failed to find song url` exactly when there is no song URL. Otherwise it fetches that URL and writes a page with the title, the comments and the saved audio. |
| Pixiv.HostEnd | src/commands/downloader/pixiv.js:16 | The path starts inside the URL, after `https://www.pixiv.net/` or `https://pixiv.net/`. |
| Pixiv.ArtworkUrlPasses | src/commands/downloader/pixiv.js:14-17 | Every artwork link passes: either host, lower-case letters, `/artworks/`, digits, an optional `#<digits>`, and an optional trailing `/`. |
| Pixiv.HostPathPasses | src/commands/downloader/pixiv.js:15-16 | A recognised host, an artwork path not ending in `/`, and at most one `/` pass. |
| Pixiv.DropSlashOf | src/commands/downloader/pixiv.js:15 | Removing the one trailing `/` added to a text gives the text back. |
| Pixiv.HostEndOfHost | src/commands/downloader/pixiv.js:16 | Either accepted host is recognised in front of any path. |
| Pixiv.ArtworkPathPasses | src/commands/downloader/pixiv.js:16 | The path part of every artwork link passes. |
| Pixiv.LetterRun | src/commands/downloader/pixiv.js:16 | `[a-z]+` in an artwork path ends at its `/`. |
| Pixiv.ArtworksAfterLetters | src/commands/downloader/pixiv.js:16 | `/artworks/` follows the letters. |
| Pixiv.DigitRun | src/commands/downloader/pixiv.js:16 | `\d+` ends at the fragment or at the end. |
| Pixiv.RunOver | src/commands/downloader/pixiv.js:16 | A run that starts after a prefix covers exactly the accepted part when the character after it fails. |
| Pixiv.RunEndFrom | src/commands/downloader/pixiv.js:16 | A run ends at the first character that fails. |
| Pixiv.PageUrl | src/commands/downloader/pixiv.js:26 | The URL opened is a prefix of the link without `#`, and is the link itself when it has no `#`. |
| Pixiv.PageUrlOfArtwork | src/commands/downloader/pixiv.js:16-26 | An artwork link stays one once its fragment is dropped. |
| Pixiv.FragmentCut | src/commands/downloader/pixiv.js:26 | With a fragment, the URL opened is the link cut after its digits, and it passes. |
| Pixiv.NoHashKept | src/commands/downloader/pixiv.js:26 | Without a `#` the URL is opened as it is. |
| Pixiv.HeadBeforeHash | src/commands/downloader/pixiv.js:26 | The first `#` ends the URL that is opened. |
| Pixiv.CutAfterDigits | src/commands/downloader/pixiv.js:16 | An artwork link cut right after its digits still passes. |
| Pixiv.IsPixivFrom | src/commands/downloader/pixiv.js:15-16 | A text with no trailing `/`, a recognised host and an artwork path passes. |
| Pixiv.ArtworkPathCut | src/commands/downloader/pixiv.js:16 | An artwork path cut right after its digits is still one. |
| Pixiv.HostEndPrefix | src/commands/downloader/pixiv.js:16 | Cutting a link after its host leaves the host recognised. |
| Pixiv.NoHashBeforeFragment | src/commands/downloader/pixiv.js:16-26 | Up to the end of the digits an artwork link holds no `#`. |
| Pixiv.HostHasNoHash | src/commands/downloader/pixiv.js:16 | Neither host holds a `#`. |
| Pixiv.PathHeadHasNoHash | src/commands/downloader/pixiv.js:16 | The letters, `/artworks/` and the digits hold no `#`. |
| Pixiv.FilterRequest | src/commands/downloader/pixiv.js:31-34 | Exactly font requests are aborted, and every other request continues. |
| Pixiv.NameImages | src/commands/downloader/pixiv.js:87-99 | There is one name per source, in order: `<id>-<i>.<last .-piece of the source>`. |
| Pixiv.ImageNamesDistinct | src/commands/downloader/pixiv.js:92-98 | No two images share a name. |
| Pixiv.ImagesHtmlSplits | src/commands/downloader/pixiv.js:154 | The array printed into the page joins the tags with `,`. Split at `,` it gives one tag per image back, when no name holds a `,`. |
| Pixiv.DownloadPixiv | src/commands/downloader/pixiv.js:25-168 | It opens the link without its fragment and names the images in order. Its description has no raw line break and reads back to the original. The page is written to `<dest>/<id>.html`. |
| Js.PromiseIsTruthy | src/commands/music.js:28 | A promise counts as true in a condition whatever it settles to, so an un-awaited `async` classifier always passes. |
| Text.JoinSplit | src/util/ytdlp.js:68 | Joining the pieces of `split(sep)` with the same separator gives the string back. |
| Text.NewlinesToBrInverts | src/commands/downloader/soundcloud.js:147 | `replaceAll('\n', '<br>')` loses nothing on a text without `<`: turning every `<br>` back into a line break restores it. |
| Text.NatToStringParses | src/commands/downloader/pixiv.js:92 | A counter written into a template is a non-empty run of digits that reads back as the counter. |
| Text.NatToStringInjective | src/commands/downloader/pixiv.js:92 | Different counters are written differently. |

## Left out

- The database client, `pg-listen` and the notification channel that calls `updateQueue`. The two tables are maps, and a notification is a call of `UpdateQueue`.
- Logging (`logger.info`/`logger.error`): the logging no-op of a missing command is the handler `MissingCommand`, which always succeeds.
- The asynchronous interleaving of src/server.js is modelled only at the `await` of the handler call. That point splits the drain into `StartJob` and `FinishJob`. The database calls are treated as atomic.
- The handlers `pin_preview`, `pdf` and `html` are abstract. Their success or failure is the oracle `throws`, because the names imported at src/server.js:6-8 are not what src/commands/html.js, pdf.js and preview.js export.
- Names such as `constructor` or `toString` are not modelled in the `COMMANDS` lookup. In JavaScript they would find a handler through `Object.prototype`.
- `new Date()` is the parameter `clock`, in milliseconds. `toLocaleString`, local time zones and the `Date` arithmetic on NaN fields are left out. The upload date is kept as the fields handed to the `Date` constructor.
- `toLowerCase` and `toUpperCase` map ASCII letters only. Other letters are left unchanged.
- The network, the filesystem and the browser are parameters or inputs, with the result each call returns given:
  - `fetch`, `got`, `open-graph-scraper`, the `soundcloud-scraper` client and the puppeteer pages;
  - pixiv's in-page scraping script and its cookie loading;
  - `createDirIfNotExist`, `fs.writeFile` and `fs.unlink` of the info JSON after `addVideoMetaToDb`.
- The yt-dlp child process is left out. Only its argument lists and the file listing it leaves behind are modelled.
- `isImgur`, DOMPurify, `escapeHtml`, `unescapeHtml`, `linkify` and `minifyHTML` are parameters. Their files are not part of this model.
- The imgur, html and pdf downloaders are not part of this model.
- Base64 encoding is a parameter. The data URL (section 2 of RFC 2397) is modelled only as `data:<type>;base64,<body>`.
- The page templates are modelled only for the fields derived from the input: sources, tracks, file names, badges, descriptions and comment blocks. The rest of the HTML is fixed text.
- Server.Dispatcher.ProcessQueue: every database query is taken to succeed. In the source a rejected `client.query` at src/server.js:42-43 or 56-63 leaves `processQueue` with `queueRunning` still true, so no later call drains the queue. If the first `UPDATE` fails, the id also stays in `queueAlreadyAdded`. The model does not capture this.
- Reddit.PostMedia: `https.get` throws at once for a URL that is not `https:`. The model does not capture this in the video and gallery branches (src/commands/downloader/reddit.js:106,115), where the throw would fail the job. The direct-link branch does model it, through the parameter `getThrows`.
- Twitter.TweetMedia: the same throw of `https.get` at src/commands/downloader/twitter.js:35 is not modelled. The only error the model's loop gives is the TypeError of an item without a string URL.
- Text.PathJoin: `path.join` is modelled as joining with one `/`. Its normalisation of `..`, `.` and repeated `/` is left out, so an id such as `..` taken from a URL names a different path in the source.
- Js.Value: JavaScript numbers are modelled as integers or NaN. Floating point, fractions, infinities and `-0` are left out. The numbers the model handles are counters, timestamps and date fields.
- Reddit.Gallery: `https.get` at src/commands/downloader/reddit.js:115 can throw at once for a URL that is not `https:`. The model's loop throws only the TypeError of missing metadata.
- Reddit.BuildGallery: the same synchronous `https.get` throw is not modelled, for the same reason as Reddit.Gallery.
- Preview.DownloadPreview: the scraper is the function `scrape`, which always answers. A rejection of `ogs()` is not modelled, so the model's call succeeds whenever the user agent can be chosen.
- Ytdlp.ToNumber: unary `+` turns every array and object into NaN here. JavaScript converts an array through its string form, so `[5] * 1000` is 5000.
- Text.StringToNumber: unary `+` is modelled only on strings of decimal digits, and every other string is NaN. JavaScript also reads surrounding white space, signs, decimals and exponents, so `+" 12"` is 12 and `+"1e3"` is 1000.
- Music.CommandAddMusicToPlaylist: the `INSERT … ON CONFLICT DO NOTHING` into `music.playlist_songs` and the `song_count` update at src/commands/music.js:46-49 are not modelled. The model stops at the playlist id, the song ids and the queued status rows.
- SavePage.PollSavedPage: requires that some poll eventually answers something other than `NONE`. The source's `while (true)` never ends otherwise.
- SavePage.Scrape: requires the same of the poll, for the same reason.

## Findings

| source | as written | input that shows it | evidently intended | confidence | as-written member | corrected member |
|---|---|---|---|---|---|---|
| src/commands/music.js:28 | `if (isNewgrounds(url))` tests the promise of an `async` function. The promise is always truthy, so every URL that no earlier site claims gets a Newgrounds id, and `unknown` is never returned. | `https://e.io/a` gives `newgrounds#a` | `await isNewgrounds(url)`: `https://e.io/a` gives `unknown` | not executed | Music.UnclaimedSongIsNewgrounds | Music.SongUrlToIdAwaited |
| src/commands/music.js:41-42 | The playlist filter starts with `isNewgrounds(url)`, the same promise, so it keeps every URL and adds it as a song. | `p,https://e.io/a` adds the song `newgrounds#a` to playlist `p` | the awaited filter drops the URL and adds no song | not executed | Music.UnclaimedPlaylistSong | Music.CommandAddMusicToPlaylistAwaited |
| src/commands/special_download.js:22 | `else if (isNewgrounds(data.data))` is always taken. Every URL imgur does not claim goes to the Newgrounds downloader, and the SoundCloud, Twitter, reddit and HTML branches are unreachable. | `https://e.io/a` is fetched as a Newgrounds song | awaited, `https://e.io/a` is saved as `<id>.html` | not executed | SpecialDownload.PlainPagePageGoesToNewgrounds | SpecialDownload.CommandMediaAwaited |
| src/commands/downloader/reddit.js:133-134 | `https.get(data.url)` has no callback, so it returns the request object, and `pipe` on a request throws in Node. The empty `catch` swallows the error, so a post whose media is a direct image link never gets its image. This reading of Node's `pipe` comes from its documented behaviour. | a post whose only media is `https://i.example.com/a.png` gets no media | `https.get(data.url, resp => resp.pipe(...))`, as at reddit.js:106 and 115: the page shows `<id>-img.png` | not executed | Reddit.DirectLinkNeverSaved | Reddit.DirectImage |
| src/node_save/nodeSavePageWE.js:51 | `&` is escaped as `&amp;amp;`, so one round of attribute decoding leaves `&amp;` where the page had `&`. Every entity the sanitiser writes is then shown as text. | the sanitised page `&lt;` reaches the iframe as `&amp;lt;` and shows `&lt;` | escape `&` as `&amp;`, so the iframe gets the page unchanged | not executed | SavePage.EntityDoubled | SavePage.EscapeOnceDecodes |
