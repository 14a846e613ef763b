/**
 * The base-URL normalisation that the GeoServer clients apply to the URL the
 * user types (for instance `http://localhost:8080/geoserver/web/`) before
 * appending REST paths: `geoserver_url.rstrip('web/')`.
 */
module GeoserverUrl {
  import opened PyStr

  /** The argument of `rstrip`: a set of characters, not a suffix. */
  const StrippedChars: String := "web/"

  /**
   * `geoserver_url.rstrip('web/')`: a prefix of the URL that does not end in
   * `w`, `e`, `b` or `/`, obtained by removing only such characters.
   */
  function BaseUrl(geoserverUrl: String): (r: String)
    ensures |r| <= |geoserverUrl| && r == geoserverUrl[..|r|]
    ensures |r| == 0 || r[|r| - 1] !in {'w', 'e', 'b', '/'}
    ensures forall i :: |r| <= i < |geoserverUrl| ==> geoserverUrl[i] in {'w', 'e', 'b', '/'}
  {
    RStrip(geoserverUrl, StrippedChars)
  }

  /** Normalising an already normalised URL changes nothing. */
  lemma BaseUrlIdempotent(geoserverUrl: String)
    ensures BaseUrl(BaseUrl(geoserverUrl)) == BaseUrl(geoserverUrl)
  {
    RStripIdempotent(geoserverUrl, StrippedChars);
  }

  /**
   * A URL such as `http://localhost:8080/geoserver` loses a trailing `/web/`
   * or `/web` and is otherwise left alone, provided it does not itself end
   * in one of the stripped characters.
   */
  lemma BaseUrlDropsWeb(url: String)
    requires url != [] && url[|url| - 1] !in {'w', 'e', 'b', '/'}
    ensures BaseUrl(url + "/web/") == url
    ensures BaseUrl(url + "/web") == url
    ensures BaseUrl(url) == url
  {
    var n := |url|;
    assert (url + "/web/")[..n] == url && (url + "/web/")[n - 1] == url[n - 1];
    RStripCut(url + "/web/", StrippedChars, n);
    assert (url + "/web")[..n] == url && (url + "/web")[n - 1] == url[n - 1];
    RStripCut(url + "/web", StrippedChars, n);
    assert url[..n] == url;
    RStripCut(url, StrippedChars, n);
  }

  /** A URL whose last path segment ends in one of the characters loses more than the `web` suffix. */
  lemma BaseUrlOverStrips()
    ensures BaseUrl("http://localhost:8080/ibge/web") == "http://localhost:8080/ibg"
  {
    var v := "http://localhost:8080/ibge/web";
    RStripCut(v, StrippedChars, |v| - 5);
  }
}
