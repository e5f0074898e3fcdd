/** The URL mixin (common_core/models/url.py): a model overrides get_url or
    get_url_path, and each base method derives its value from the other. */
module Url {
  import opened Wrappers
  import opened Text

  /** What a model does for one of the two methods: keeps the base method
      (which carries the dont_recurse marker), or overrides it with a method
      that returns a value or raises NotImplementedError. */
  datatype Method = Inherited | Returns(value: string) | RaisesNotImplemented

  datatype UrlModel = UrlModel(getUrl: Method, getUrlPath: Method)

  datatype UrlError = NotImplemented

  /** The result of calling an overriding method. */
  function CallOverride(m: Method): (r: Result<string, UrlError>)
    requires !m.Inherited?
    ensures r.Success? <==> m.Returns?
    ensures m.Returns? ==> r.value == m.value
  {
    if m.Returns? then Success(m.value) else Failure(NotImplemented)
  }

  // ---------------------------------------------------------------------------
  // urlparse / urlunparse as used by get_url_path.

  predicate IsAsciiLetter(c: char) { 'a' <= c <= 'z' || 'A' <= c <= 'Z' }

  predicate SchemeChar(c: char)
  {
    IsAsciiLetter(c) || '0' <= c <= '9' || c == '+' || c == '-' || c == '.'
  }

  predicate ValidScheme(s: string)
  {
    |s| > 0 && IsAsciiLetter(s[0]) && forall i :: 0 <= i < |s| ==> SchemeChar(s[i])
  }

  /** The text after "scheme:", or u itself when it has no scheme. */
  function StripScheme(u: string): (r: string)
    ensures |r| <= |u| && EndsWith(u, r)
  {
    var i := UpTo(u, {':'});
    if i < |u| && ValidScheme(u[..i]) then
      assert u[|u| - |u[i + 1..]|..] == u[i + 1..];
      u[i + 1..]
    else
      assert u[|u| - |u|..] == u;
      u
  }

  /** The text after "//netloc", or s itself when it has no netloc. */
  function StripNetloc(s: string): (r: string)
    ensures |r| <= |s| && EndsWith(s, r)
  {
    if |s| >= 2 && s[..2] == "//" then
      var rest := s[2..];
      var k := UpTo(rest, {'/', '?', '#'});
      assert s[|s| - |rest[k..]|..] == rest[k..];
      rest[k..]
    else
      assert s[|s| - |s|..] == s;
      s
  }

  /** urlunparse(("", "") + urlparse(url)[2:]): the URL with its scheme and
      network location removed. */
  function UrlPath(url: string): (r: string)
    ensures EndsWith(url, r)
  {
    var s := StripScheme(url);
    var r := StripNetloc(s);
    assert url[|url| - |r|..] == s[|s| - |r|..];
    r
  }

  lemma StripSchemeOf(scheme: string, rest: string)
    requires ValidScheme(scheme)
    ensures StripScheme(scheme + ":" + rest) == rest
  {
    var url := scheme + ":" + rest;
    assert forall i :: 0 <= i < |scheme| ==> url[i] == scheme[i];
    UpToFirst(url, {':'}, |scheme|);
    assert url[..|scheme|] == scheme;
    assert url[|scheme| + 1..] == rest;
  }

  lemma StripNetlocOf(netloc: string, path: string)
    requires forall i :: 0 <= i < |netloc| ==> netloc[i] !in {'/', '?', '#'}
    requires path == "" || path[0] == '/'
    ensures StripNetloc("//" + netloc + path) == path
  {
    var s := "//" + netloc + path;
    assert s[..2] == "//";
    var rest := s[2..];
    assert rest == netloc + path;
    assert forall i :: 0 <= i < |netloc| ==> rest[i] == netloc[i];
    UpToFirst(rest, {'/', '?', '#'}, |netloc|);
    assert rest[|netloc|..] == path;
  }

  /** A path put after "scheme://netloc" comes back out of UrlPath. */
  lemma UrlPathRoundTrip(scheme: string, netloc: string, path: string)
    requires ValidScheme(scheme)
    requires forall i :: 0 <= i < |netloc| ==> netloc[i] !in {'/', '?', '#'}
    requires path == "" || path[0] == '/'
    ensures UrlPath(scheme + "://" + netloc + path) == path
  {
    assert scheme + "://" + netloc + path == scheme + ":" + ("//" + netloc + path);
    StripSchemeOf(scheme, "//" + netloc + path);
    StripNetlocOf(netloc, path);
  }

  // ---------------------------------------------------------------------------
  // The two methods and get_absolute_url.

  /** self.get_url(). The base method raises at once when get_url_path is the
      base one too, so the pair never recurses; otherwise it calls the
      override and prefixes SITE_URL, letting NotImplementedError through. */
  function GetUrl(m: UrlModel, siteUrl: string): (r: Result<string, UrlError>)
    ensures m.getUrl.Inherited? && m.getUrlPath.Inherited? ==> r == Failure(NotImplemented)
    ensures m.getUrl.Inherited? && m.getUrlPath.Returns? ==> r == Success(siteUrl + m.getUrlPath.value)
    ensures m.getUrl.Inherited? && m.getUrlPath.RaisesNotImplemented? ==> r == Failure(NotImplemented)
    ensures !m.getUrl.Inherited? ==> r == CallOverride(m.getUrl)
  {
    if !m.getUrl.Inherited? then CallOverride(m.getUrl)
    else if m.getUrlPath.Inherited? then Failure(NotImplemented)
    else
      match CallOverride(m.getUrlPath)
      case Failure(e) => Failure(e)
      case Success(path) => Success(siteUrl + path)
  }

  /** self.get_url_path(), symmetric to GetUrl. */
  function GetUrlPath(m: UrlModel): (r: Result<string, UrlError>)
    ensures m.getUrlPath.Inherited? && m.getUrl.Inherited? ==> r == Failure(NotImplemented)
    ensures m.getUrlPath.Inherited? && m.getUrl.Returns? ==> r == Success(UrlPath(m.getUrl.value))
    ensures m.getUrlPath.Inherited? && m.getUrl.RaisesNotImplemented? ==> r == Failure(NotImplemented)
    ensures !m.getUrlPath.Inherited? ==> r == CallOverride(m.getUrlPath)
  {
    if !m.getUrlPath.Inherited? then CallOverride(m.getUrlPath)
    else if m.getUrl.Inherited? then Failure(NotImplemented)
    else
      match CallOverride(m.getUrl)
      case Failure(e) => Failure(e)
      case Success(url) => Success(UrlPath(url))
  }

  /** get_absolute_url: always get_url. */
  function GetAbsoluteUrl(m: UrlModel, siteUrl: string): (r: Result<string, UrlError>)
    ensures r == GetUrl(m, siteUrl)
  {
    GetUrl(m, siteUrl)
  }

  /** A model that overrides get_url_path with p gets SITE_URL + p from
      get_url; a model that overrides get_url with that URL gets p back from
      get_url_path, when SITE_URL is scheme://netloc and p is a path. */
  lemma PathThroughUrl(scheme: string, netloc: string, p: string)
    requires ValidScheme(scheme)
    requires forall i :: 0 <= i < |netloc| ==> netloc[i] !in {'/', '?', '#'}
    requires p == "" || p[0] == '/'
    ensures var url := GetUrl(UrlModel(Inherited, Returns(p)), scheme + "://" + netloc);
      url.Success? && GetUrlPath(UrlModel(Returns(url.value), Inherited)) == Success(p)
  {
    UrlPathRoundTrip(scheme, netloc, p);
  }

  /** A model that overrides neither method fails in both. */
  lemma NeitherOverridden(siteUrl: string)
    ensures GetUrl(UrlModel(Inherited, Inherited), siteUrl).Failure?
    ensures GetUrlPath(UrlModel(Inherited, Inherited)).Failure?
    ensures GetAbsoluteUrl(UrlModel(Inherited, Inherited), siteUrl).Failure?
  {
  }
}
