/**
 * src/node_save/nodeSavePageWE.js: `scrape(task)` waits for the page to
 * render, polls the injected script until it has produced the saved page,
 * escapes that page for a `srcdoc` attribute and writes it, wrapped in a
 * sandboxed iframe, to `task.path`. The browser, the script and the
 * sanitiser are parameters.
 */
module SavePage {
  import opened Js
  import opened Text
  import RenderWait

  const NotReady := "NONE"
  const SnoozeMs := 100

  /**
   * The `while (true)` poll: read `htmlFINAL` (the `k`-th read gives
   * `htmlFinal(k)`) until it is not `NONE`, sleeping 100 ms after each
   * `NONE`.
   */
  method PollSavedPage(htmlFinal: nat -> string) returns (html: string, polls: nat, snoozedMs: nat)
    requires exists n: nat :: htmlFinal(n) != NotReady
    ensures polls >= 1 && html == htmlFinal(polls - 1) && html != NotReady
    ensures forall k: nat :: k < polls - 1 ==> htmlFinal(k) == NotReady
    ensures snoozedMs == SnoozeMs * (polls - 1)
  {
    ghost var ready: nat :| htmlFinal(ready) != NotReady;
    polls, snoozedMs := 0, 0;
    while true
      invariant forall k: nat :: k < polls ==> htmlFinal(k) == NotReady
      invariant polls <= ready
      invariant snoozedMs == SnoozeMs * polls
      decreases ready - polls
    {
      html := htmlFinal(polls);
      polls := polls + 1;
      if html != NotReady {
        break;
      }
      snoozedMs := snoozedMs + SnoozeMs;
    }
  }

  /** `html.replace(/&/g, '&amp;amp;').replace(/"/g, '&quot;')`. */
  function Escape(html: string): (r: string)
    ensures '"' !in r
  {
    ReplaceCharRemoves(ReplaceAll(html, "&", "&amp;amp;"), '"', "&quot;");
    ReplaceAll(ReplaceAll(html, "&", "&amp;amp;"), "\"", "&quot;")
  }

  /** What `Escape` makes of one character. */
  function EscapeChar(c: char): string {
    if c == '&' then "&amp;amp;" else if c == '"' then "&quot;" else [c]
  }

  /** The two rewrites together work character by character. */
  lemma EscapeCons(c: char, rest: string)
    ensures Escape([c] + rest) == EscapeChar(c) + Escape(rest)
  {
    ReplaceCharConcat([c], rest, '&', "&amp;amp;");
    var a := ReplaceAll([c], "&", "&amp;amp;");
    var b := ReplaceAll(rest, "&", "&amp;amp;");
    assert a == if c == '&' then "&amp;amp;" else [c] by {
      assert [c][1..] == [];
    }
    ReplaceCharConcat(a, b, '"', "&quot;");
    if c == '&' {
      ReplaceAllPlain(a, [], "\"", "&quot;");
      assert a + [] == a;
    } else {
      assert [c][1..] == [];
    }
  }

  /**
   * How a browser reads the attribute value back: `&quot;` is a `"` and
   * `&amp;` an `&`, scanning left to right; everything else stands for itself.
   */
  function DecodeAttribute(t: string): string
    decreases |t|
  {
    if |t| == 0 then ""
    else if StartsWith(t, "&quot;") then "\"" + DecodeAttribute(t[6..])
    else if StartsWith(t, "&amp;") then "&" + DecodeAttribute(t[5..])
    else [t[0]] + DecodeAttribute(t[1..])
  }

  /** A character other than `&` stands for itself. */
  lemma DecodeOther(t: string)
    requires |t| > 0 && t[0] != '&'
    ensures DecodeAttribute(t) == [t[0]] + DecodeAttribute(t[1..])
  {
    assert !StartsWith(t, "&quot;") by {
      assert |t| >= 6 ==> t[..6][0] == t[0];
    }
    assert !StartsWith(t, "&amp;") by {
      assert |t| >= 5 ==> t[..5][0] == t[0];
    }
  }

  /** Text without `&` decodes to itself. */
  lemma {:induction false} DecodePlain(a: string, t: string)
    requires '&' !in a
    ensures DecodeAttribute(a + t) == a + DecodeAttribute(t)
    decreases |a|
  {
    if |a| > 0 {
      var at := a + t;
      assert at[0] == a[0];
      assert at[1..] == a[1..] + t;
      DecodeOther(at);
      DecodePlain(a[1..], t);
      assert a == [a[0]] + a[1..];
    } else {
      assert a + t == t;
    }
  }

  /** Decoding one escaped character. */
  lemma DecodeEscapeChar(c: char, t: string)
    ensures DecodeAttribute(EscapeChar(c) + t) == ReplaceAll([c], "&", "&amp;") + DecodeAttribute(t)
  {
    if c == '&' {
      DecodeAmp(t);
      ReplaceAllLead("&", [], "&amp;");
      assert [c] == "&" + [];
    } else if c == '"' {
      var e := "&quot;" + t;
      assert e[..6] == "&quot;";
      assert e[6..] == t;
      ReplaceAllPlain([c], [], "&", "&amp;");
      assert [c] + [] == [c];
    } else {
      var e := [c] + t;
      assert e[1..] == t;
      DecodeOther(e);
      ReplaceAllPlain([c], [], "&", "&amp;");
      assert [c] + [] == [c];
    }
  }

  /** `&amp;amp;` reads back as `&amp;`. */
  lemma DecodeAmp(t: string)
    ensures DecodeAttribute("&amp;amp;" + t) == "&amp;" + DecodeAttribute(t)
  {
    var e := "&amp;amp;" + t;
    assert !StartsWith(e, "&quot;") by {
      assert |e| >= 6 ==> e[..6][1] == 'a';
    }
    assert e[..5] == "&amp;";
    assert e[5..] == "amp;" + t;
    DecodePlain("amp;", t);
  }

  /**
   * The document the sandboxed iframe gets is the saved page with every `&`
   * written as `&amp;`: the double escape survives one round of decoding.
   */
  lemma {:induction false} EscapeDecodes(html: string)
    ensures DecodeAttribute(Escape(html)) == ReplaceAll(html, "&", "&amp;")
    decreases |html|
  {
    if |html| > 0 {
      var c := html[0];
      var rest := html[1..];
      assert html == [c] + rest;
      EscapeCons(c, rest);
      DecodeEscapeChar(c, Escape(rest));
      EscapeDecodes(rest);
      ReplaceCharConcat([c], rest, '&', "&amp;");
    }
  }

  /**
   * A lone `"` becomes `&quot;` and a lone `&` becomes `&amp;amp;`: the `&`
   * that the second rewrite inserts is not escaped again.
   */
  lemma EscapeSingle(c: char)
    ensures Escape([c]) == EscapeChar(c)
    ensures Escape("\"") == "&quot;"
  {
    EscapeCons(c, []);
    EscapeCons('"', []);
    assert [c] + [] == [c];
    assert ['"'] + [] == "\"";
  }

  /** Text with neither `&` nor `"` is left as it is. */
  lemma {:induction false} EscapePlainChars(s: string)
    requires '&' !in s && '"' !in s
    ensures Escape(s) == s
    decreases |s|
  {
    if |s| > 0 {
      assert s == [s[0]] + s[1..];
      EscapeCons(s[0], s[1..]);
      EscapePlainChars(s[1..]);
    }
  }

  /**
   * The escape an attribute value needs: `&` as `&amp;`, then `"` as
   * `&quot;`. One round of decoding gives the page back unchanged.
   */
  function EscapeOnce(html: string): (r: string)
    ensures '"' !in r
  {
    ReplaceCharRemoves(ReplaceAll(html, "&", "&amp;"), '"', "&quot;");
    ReplaceAll(ReplaceAll(html, "&", "&amp;"), "\"", "&quot;")
  }

  /** What `EscapeOnce` makes of one character. */
  function EscapeOnceChar(c: char): string {
    if c == '&' then "&amp;" else if c == '"' then "&quot;" else [c]
  }

  /** `EscapeOnce` works character by character. */
  lemma EscapeOnceCons(c: char, rest: string)
    ensures EscapeOnce([c] + rest) == EscapeOnceChar(c) + EscapeOnce(rest)
  {
    ReplaceCharConcat([c], rest, '&', "&amp;");
    var a := ReplaceAll([c], "&", "&amp;");
    var b := ReplaceAll(rest, "&", "&amp;");
    assert a == if c == '&' then "&amp;" else [c] by {
      assert [c][1..] == [];
    }
    ReplaceCharConcat(a, b, '"', "&quot;");
    if c == '&' {
      ReplaceAllPlain(a, [], "\"", "&quot;");
      assert a + [] == a;
    } else {
      assert [c][1..] == [];
    }
  }

  /** Decoding one character escaped once gives the character back. */
  lemma DecodeEscapeOnceChar(c: char, t: string)
    ensures DecodeAttribute(EscapeOnceChar(c) + t) == [c] + DecodeAttribute(t)
  {
    if c == '&' {
      var e := "&amp;" + t;
      assert !StartsWith(e, "&quot;") by {
        assert |e| >= 6 ==> e[..6][1] == 'a';
      }
      assert e[..5] == "&amp;";
      assert e[5..] == t;
    } else if c == '"' {
      var e := "&quot;" + t;
      assert e[..6] == "&quot;";
      assert e[6..] == t;
    } else {
      var e := [c] + t;
      assert e[1..] == t;
      DecodeOther(e);
    }
  }

  /** The document the iframe would get from `EscapeOnce` is the page itself. */
  lemma {:induction false} EscapeOnceDecodes(html: string)
    ensures DecodeAttribute(EscapeOnce(html)) == html
    decreases |html|
  {
    if |html| > 0 {
      var c := html[0];
      var rest := html[1..];
      assert html == [c] + rest;
      EscapeOnceCons(c, rest);
      DecodeEscapeOnceChar(c, EscapeOnce(rest));
      EscapeOnceDecodes(rest);
    }
  }

  /**
   * The counterexample: the sanitised page `&lt;`, which shows `<`, reaches
   * the iframe as `&amp;lt;`, which shows `&lt;`; escaped once it arrives
   * as `&lt;`.
   */
  lemma EntityDoubled()
    ensures DecodeAttribute(Escape("&lt;")) == "&amp;lt;"
    ensures DecodeAttribute(EscapeOnce("&lt;")) == "&lt;"
  {
    EscapeDecodes("&lt;");
    EscapeOnceDecodes("&lt;");
    assert "&lt;" == "&" + "lt;";
    ReplaceAllLead("&", "lt;", "&amp;");
    ReplaceAllPlain("lt;", [], "&", "&amp;");
    assert "lt;" + [] == "lt;";
    assert ReplaceAll([], "&", "&amp;") == [];
  }

  /** The page around the iframe, up to the opening quote of `srcdoc`. */
  const SrcdocHead :=
    "\n    <head><meta content='width=device-width, initial-scale=1.0' name='viewport'><meta charset=\"UTF-8\">\n    <style>\n        body, html: { margin: 0; padding: 0; height: 100%; overflow: hidden; }\n        div { position: absolute; top: 0; left: 0; right: 0; bottom: 0; }\n    </style></head><body>\n    <div><iframe  width=\"100%\" height=\"100%\" frameborder=\"0\" seamless sandbox srcdoc=\""

  /** From the closing quote of `srcdoc` to the end of the page. */
  const SrcdocTail := "\"/></div></body>\n    "

  /** The template that embeds the escaped page. */
  function Wrap(escaped: string): string {
    SrcdocHead + escaped + SrcdocTail
  }

  /**
   * The `srcdoc` value, which runs from the end of the head to the next `"`,
   * is exactly the escaped page: nothing of the page can close the attribute.
   */
  lemma SrcdocValue(html: string)
    ensures StartsWith(Wrap(Escape(html)), SrcdocHead)
    ensures Split(Wrap(Escape(html))[|SrcdocHead|..], "\"")[0] == Escape(html)
  {
    var e := Escape(html);
    AttributeValue(SrcdocHead, e, SrcdocTail[1..]);
    assert SrcdocTail == "\"" + SrcdocTail[1..];
  }

  lemma AttributeValue(head: string, e: string, tail: string)
    requires '"' !in e
    ensures StartsWith(head + e + ("\"" + tail), head)
    ensures Split((head + e + ("\"" + tail))[|head|..], "\"")[0] == e
  {
    var w := head + e + ("\"" + tail);
    assert w[..|head|] == head;
    assert w[|head|..] == e + ['"'] + tail;
    FirstCharAfter(e, '"', tail);
  }

  /** What `scrape` writes, and when, relative to closing the browser. */
  datatype Effect = WriteFile(path: string, contents: string) | CloseBrowser

  /** A job's `task`: the URL to save and the file to write. */
  datatype Task = Task(url: string, path: string)

  /**
   * `scrape(task)`: the page's HTML while rendering is `content(k)`, the
   * script's output is `htmlFinal(k)`, and `sanitize` is DOMPurify.
   */
  method Scrape(task: Task, content: nat -> string, htmlFinal: nat -> string, sanitize: string -> string)
    returns (effects: seq<Effect>)
    requires exists n: nat :: htmlFinal(n) != NotReady
    ensures |effects| == 2 && effects[1] == CloseBrowser && effects[0].WriteFile? && effects[0].path == task.path
    ensures exists k: nat :: && htmlFinal(k) != NotReady
                           && (forall j: nat :: j < k ==> htmlFinal(j) == NotReady)
                           && effects[0].contents == Wrap(Escape(sanitize(htmlFinal(k))))
  {
    var _, _, _ := RenderWait.WaitTillHtmlRendered(content, None);
    var savedPageHtml, polls, _ := PollSavedPage(htmlFinal);
    savedPageHtml := sanitize(savedPageHtml);
    savedPageHtml := Escape(savedPageHtml);
    savedPageHtml := Wrap(savedPageHtml);
    effects := [WriteFile(task.path, savedPageHtml)];
    effects := effects + [CloseBrowser];
  }
}
