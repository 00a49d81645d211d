/**
 * The `url` filter registered in web/.eleventy.js, which the page templates use to build
 * links under a deployment path prefix. The prefix is read from the environment variable
 * `PATH_PREFIX` (empty when unset); here it is a parameter.
 */
module Eleventy {

  import opened Strings

  /** The `url` filter: give `url` a leading `/` if it lacks one, then put the prefix in front. */
  function Url(pathPrefix: string, url: string): (r: string)
    ensures StartsWith(r, pathPrefix)
    ensures StartsWith(r[|pathPrefix|..], "/")
    ensures StartsWith(url, "/") ==> |r| == |pathPrefix| + |url|
    ensures !StartsWith(url, "/") ==> |r| == |pathPrefix| + |url| + 1
    ensures r[|r| - |url|..] == url
  {
    var path := if !StartsWith(url, "/") then "/" + url else url;
    pathPrefix + path
  }

  /** A url that already starts with `/` gets the prefix and nothing else. */
  lemma UrlRooted(pathPrefix: string, url: string)
    requires StartsWith(url, "/")
    ensures Url(pathPrefix, url) == pathPrefix + url
  {
  }

  /**
   * Normalising is done once: filtering the filter's own output (under an empty prefix)
   * again under a prefix gives what filtering the original url under that prefix gives.
   */
  lemma UrlNormalisedOnce(pathPrefix: string, url: string)
    ensures Url(pathPrefix, Url("", url)) == Url(pathPrefix, url)
  {
    var once := Url("", url);
    assert StartsWith(once, "/") by {
      assert once[|""|..] == once;
    }
  }
}
