/** The URL gate of src/util/url.js. */
module Url {
  import opened Js
  import opened Text

  const NotAllowed := "URL is not allowed"

  /** `validateUrl(url)`: returns normally, or throws `URL is not allowed`. */
  function ValidateUrl(url: string): (r: Result<()>)
    ensures r.Throw? ==> r.message == NotAllowed
  {
    if !StartsWith(url, "http://") && !StartsWith(url, "https://") then Throw(NotAllowed) else Ok(())
  }

  /** The gate admits exactly the strings that begin with `http://` or `https://`. */
  lemma ValidateUrlAdmits(url: string)
    ensures ValidateUrl(url).Ok? <==> StartsWith(url, "http://") || StartsWith(url, "https://")
    ensures ValidateUrl(url).Throw? <==> ValidateUrl(url) == Throw(NotAllowed)
  {
  }

  /** Nothing after the scheme is inspected: even `https://` alone passes. */
  lemma {:induction false} ValidateUrlIgnoresRest(rest: string)
    ensures ValidateUrl("https://" + rest).Ok?
    ensures ValidateUrl("http://" + rest).Ok?
  {
    assert ("https://" + rest)[..8] == "https://";
    assert ("http://" + rest)[..7] == "http://";
  }

  /** The scheme test is case-sensitive: an upper-case scheme is refused. */
  lemma {:induction false} ValidateUrlCaseSensitive(rest: string)
    ensures ValidateUrl("HTTPS://" + rest) == Throw(NotAllowed)
    ensures ValidateUrl("HTTP://" + rest) == Throw(NotAllowed)
  {
    assert ("HTTPS://" + rest)[0] == 'H';
    assert ("HTTP://" + rest)[0] == 'H';
  }
}
