/**
 * The files src/commands/downloader/soundcloud.js and
 * src/commands/downloader/newgrounds.js both leave in `dest`: the audio as
 * `<id>.mp3`, and a page `<id>.html` whose `<audio>` source is `<id>.mp3`.
 */
module AudioBackup {
  import opened Text

  /** Where the audio and the page are written, and the source the page plays. */
  datatype Files = Files(audioPath: string, pagePath: string, audioSrc: string)

  function SavedFiles(dest: string, id: string): (r: Files)
    ensures r.audioPath == PathJoin(dest, r.audioSrc)
    ensures r.audioPath != r.pagePath
    ensures EndsWith(r.audioPath, ".mp3") && EndsWith(r.pagePath, ".html")
    ensures StartsWith(r.audioSrc, id) && StartsWith(r.pagePath, dest + "/" + id)
  {
    var f := Files(PathJoin(dest, id + ".mp3"), PathJoin(dest, id + ".html"), id + ".mp3");
    assert f.audioPath[|f.audioPath| - 1] != f.pagePath[|f.pagePath| - 1];
    f
  }
}
