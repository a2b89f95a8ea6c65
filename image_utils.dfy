/** The front end's image URL rewrite: an S3 object URL becomes a path under the back
    end's image proxy, anything else is kept. URL parsing (`new URL(url).pathname`) is a
    parameter that either yields the pathname or fails. */
module ImageUtils {
  import opened Common

  const RegionalHost: string := "s3.us-east-1.amazonaws.com"
  const GlobalHost: string := ".s3.amazonaws.com"
  const ProxyPrefix: string := "/api/images/"

  predicate IsS3Url(url: string)
  {
    Includes(url, RegionalHost) || Includes(url, GlobalHost)
  }

  /** `pathname.substring(1)`: everything after the first character. */
  function DropFirst(s: string): (r: string)
    ensures |s| >= 1 ==> r == s[1..]
    ensures |s| == 0 ==> r == ""
  {
    if |s| >= 1 then s[1..] else ""
  }

  /** `getProxiedImageUrl`; `None` is both a null input and the null result. */
  function ProxiedImageUrl(url: Option<string>, pathnameOf: string -> Option<string>): (r: Option<string>)
    ensures !Present(url) ==> r.None?
    ensures Present(url) && !IsS3Url(url.value) ==> r == url
    ensures Present(url) && IsS3Url(url.value) && pathnameOf(url.value).None? ==> r == url
    ensures Present(url) && IsS3Url(url.value) && pathnameOf(url.value).Some? ==>
      r.Some? && |r.value| >= |ProxyPrefix| && r.value[..|ProxyPrefix|] == ProxyPrefix &&
      r.value[|ProxyPrefix|..] == DropFirst(pathnameOf(url.value).value)
  {
    if !Present(url) then None
    else if IsS3Url(url.value) then
      match pathnameOf(url.value)
      case None => url
      case Some(path) => Some(ProxyPrefix + DropFirst(path))
    else url
  }

  /** An object URL of a bucket, `https://<bucket>.s3.amazonaws.com/<key>`, whose
      pathname parses as `/<key>`, is served from `/api/images/<key>`. */
  lemma BucketUrlIsProxied(bucket: string, key: string, pathnameOf: string -> Option<string>)
    requires pathnameOf("https://" + bucket + GlobalHost + "/" + key) == Some("/" + key)
    ensures ProxiedImageUrl(Some("https://" + bucket + GlobalHost + "/" + key), pathnameOf) ==
      Some(ProxyPrefix + key)
  {
    var url := "https://" + bucket + GlobalHost + "/" + key;
    var at := 8 + |bucket|;
    assert url[at..at + |GlobalHost|] == GlobalHost;
    assert OccursAt(url, GlobalHost, at);
    assert ("/" + key)[1..] == key;
  }

  /** A URL the rewrite keeps (a local `/uploads/...` path, say) is kept again: for
      URLs outside S3 the rewrite is the identity. */
  lemma NonS3UrlIsFixed(url: string, pathnameOf: string -> Option<string>)
    requires url != "" && !IsS3Url(url)
    ensures ProxiedImageUrl(ProxiedImageUrl(Some(url), pathnameOf), pathnameOf) == Some(url)
  {
  }
}
