/**
 * How the downloaders name the files they save next to a page: a stem, a
 * running counter and an extension (`<id>-<i>.<ext>`, `<id>-img<i>.<ext>`),
 * and the extension read off a media URL.
 */
module FileNames {
  import opened Js
  import opened Text

  /** A file fetched from `url` and saved as `filename` beside the page. */
  datatype Download = Download(url: string, filename: string)

  /** The tag a page shows a saved image with. */
  function ImgTag(filename: string): string {
    "<img src=\"" + filename + "\" loading=\"lazy\">"
  }

  /** `${stem}${i}.${ext}`. */
  function IndexedName(stem: string, i: nat, ext: string): string {
    stem + NatToString(i) + "." + ext
  }

  /** Names made with different counters differ, whatever their extensions. */
  lemma IndexedNamesDistinct(stem: string, i: nat, j: nat, e1: string, e2: string)
    requires IndexedName(stem, i, e1) == IndexedName(stem, j, e2)
    ensures i == j
  {
    var d1 := NatToString(i);
    var d2 := NatToString(j);
    NatToStringParses(i);
    NatToStringParses(j);
    var n := IndexedName(stem, i, e1)[|stem|..];
    assert n == d1 + ['.'] + e1;
    assert n == d2 + ['.'] + e2;
    FirstCharAfter(d1, '.', e1);
    FirstCharAfter(d2, '.', e2);
    assert d1 == n[..|d1|] == d2;
    NatToStringInjective(i, j);
  }

  /** `url.split('?')[0].split('.').at(-1)`: the last `.`-segment before the query. */
  function ExtBeforeQuery(url: string): string {
    LastPart(Split(url, "?")[0], ".")
  }

  /** That extension ends the path part of the URL and holds neither `.` nor `?`. */
  lemma ExtBeforeQueryShape(url: string)
    ensures EndsWith(Split(url, "?")[0], ExtBeforeQuery(url))
    ensures '.' !in ExtBeforeQuery(url) && '?' !in ExtBeforeQuery(url)
  {
    var path := Split(url, "?")[0];
    SplitPartsExcludeSep(url, "?", 0);
    NotIncludesChar(path, '?');
    LastPartIsSuffix(path, ".");
    NotIncludesChar(ExtBeforeQuery(url), '.');
    var e := ExtBeforeQuery(url);
    forall k | 0 <= k < |e|
      ensures e[k] != '?'
    {
      assert e[k] == path[|path| - |e| + k];
    }
  }
}
