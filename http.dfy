/**
 * Request descriptors as the API slices hand them to the transport, cache
 * tags, and the base URL both slices derive from the `API_URL` setting.
 */
module Http {
  import opened Optional

  datatype Verb = GET | POST | PUT | PATCH

  /** A cache tag `{ type, id }`; `id` is absent for a bare tag type such as
      `"Project"`. */
  datatype Tag = Tag(kind: string, id: Option<string>)

  /** `s.replace(/\/+$/, "")`: removes the run of `/` at the end. */
  function StripTrailingSlashes(s: string): (r: string)
    ensures |r| <= |s| && r == s[..|r|]
    ensures r == [] || r[|r| - 1] != '/'
    ensures forall i :: |r| <= i < |s| ==> s[i] == '/'
  {
    if s != [] && s[|s| - 1] == '/' then StripTrailingSlashes(s[..|s| - 1]) else s
  }

  /** A string that does not end in `/` is left as it is. */
  lemma {:induction false} StripWithoutSlash(s: string)
    requires s == [] || s[|s| - 1] != '/'
    ensures StripTrailingSlashes(s) == s
  {
  }

  /** `(Config.API_URL || "").replace(/\/+$/, "")`. */
  function BaseUrl(apiUrl: Option<string>): (r: string)
    ensures apiUrl.None? ==> r == ""
    ensures apiUrl.Some? ==> r == StripTrailingSlashes(apiUrl.value)
  {
    StripTrailingSlashes(if apiUrl.Some? then apiUrl.value else "")
  }

  /** The base URL never ends in `/`, and adding slashes to the setting does
      not change it. */
  lemma {:induction false} BaseUrlIgnoresExtraSlashes(url: string, n: nat)
    ensures var r := BaseUrl(Some(url)); r == [] || r[|r| - 1] != '/'
    ensures BaseUrl(Some(url + seq(n, _ => '/'))) == BaseUrl(Some(url))
    decreases n
  {
    if n > 0 {
      var longer := url + seq(n, _ => '/');
      assert longer[..|longer| - 1] == url + seq(n - 1, _ => '/');
      BaseUrlIgnoresExtraSlashes(url, n - 1);
    }
  }

  /** Stripping is idempotent. */
  lemma BaseUrlIdempotent(apiUrl: Option<string>)
    ensures BaseUrl(Some(BaseUrl(apiUrl))) == BaseUrl(apiUrl)
  {
    StripWithoutSlash(BaseUrl(apiUrl));
  }
}
