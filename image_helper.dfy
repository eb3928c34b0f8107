// `getImageUrl` of frontend/src/utils/imageHelper.js, with the base URL of
// frontend/src/utils/apiPaths.js as a parameter.

module ImageHelper {
  import opened Wrappers
  import opened JsBuiltins

  /** The fallback used when no `VITE_API_BASE_URL` is configured,
      "https://careerconnect-project.onrender.com", written as its scheme and
      the rest so that its first four characters are evident to the verifier. */
  const DefaultBaseUrl := DefaultScheme + "://careerconnect-project.onrender.com"
  const DefaultScheme := "https"

  /** `BASE_URL`: `import.meta.env.VITE_API_BASE_URL || DefaultBaseUrl`. */
  function BaseUrl(env: Option<string>): (r: string)
    ensures r != ""
    ensures Truthy(env) ==> r == env.value
    ensures !Truthy(env) ==> StartsWith(r, "http")
  {
    if Truthy(env) then env.value else DefaultBaseIsHttp(); DefaultBaseUrl
  }

  /** Without a configured base, or with an http one, image URLs are stable
      under a second application of the helper. */
  lemma BaseUrlImagesIdempotent(env: Option<string>, path: Option<string>)
    requires !Truthy(env) || StartsWith(env.value, "http")
    ensures var base := BaseUrl(env);
      GetImageUrl(base, Some(GetImageUrl(base, path))) == GetImageUrl(base, path)
  {
    GetImageUrlIdempotent(BaseUrl(env), path);
  }

  /** A path that is already a full URL: it starts with "http" (so also "https")
      or is a "blob:" object URL. */
  predicate IsAbsolute(path: string) {
    StartsWith(path, "http") || StartsWith(path, "blob:")
  }

  function GetImageUrl(baseUrl: string, path: Option<string>): (r: string)
    ensures path.None? || path == Some("") ==> r == ""
    ensures path.Some? && path.value != "" ==>
              && |path.value| <= |r|
              && r[|r| - |path.value|..] == path.value
              && (IsAbsolute(path.value) ==> r == path.value)
              && (!IsAbsolute(path.value) ==> |r| == |baseUrl| + |path.value| && r[..|baseUrl|] == baseUrl)
  {
    if path.None? || path.value == "" then ""
    else if IsAbsolute(path.value) then path.value
    else
      var r := baseUrl + path.value;
      assert r[|r| - |path.value|..] == path.value;
      r
  }

  /** The default base is an http URL. */
  lemma DefaultBaseIsHttp()
    ensures StartsWith(DefaultBaseUrl, "http")
  {
    assert DefaultScheme[..4] == "http";
    assert DefaultBaseUrl[..4] == DefaultScheme[..4];
  }

  /** With an http base, applying the helper to its own result changes nothing:
      a result is either empty or already absolute. */
  lemma GetImageUrlIdempotent(baseUrl: string, path: Option<string>)
    requires StartsWith(baseUrl, "http")
    ensures GetImageUrl(baseUrl, Some(GetImageUrl(baseUrl, path))) == GetImageUrl(baseUrl, path)
  {
    var r := GetImageUrl(baseUrl, path);
    if r != "" {
      if !IsAbsolute(path.value) {
        assert r[..4] == baseUrl[..4];
      }
      assert IsAbsolute(r);
    }
  }
}
