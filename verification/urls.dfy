/** The frontend URL configuration: the URL links point to, and the origins
    CORS allows. The environment variables are inputs (None when unset). */
module Urls {
  import opened Wrappers
  import opened Text

  /** NODE_ENV, FRONTEND_URL_PROD and FRONTEND_URL_DEV. */
  datatype Env = Env(nodeEnv: Option<string>, prodUrl: Option<string>, devUrls: Option<string>)

  const ProductionDefault := "https://taskeer.onrender.com"
  const DevelopmentDefault := "http://localhost:4200"

  /** `process.env.X || fallback`: an unset or empty variable falls back. */
  function OrDefault(v: Option<string>, fallback: string): (r: string)
    ensures v.Some? && v.value != "" ==> r == v.value
    ensures !(v.Some? && v.value != "") ==> r == fallback
  {
    if v.Some? && v.value != "" then v.value else fallback
  }

  /** NODE_ENV defaults to development. */
  predicate Production(env: Env) {
    OrDefault(env.nodeEnv, "development") == "production"
  }

  /** obtenerFrontendUrl. */
  function FrontendUrl(env: Env): (r: string)
    ensures Production(env) ==> r == OrDefault(env.prodUrl, ProductionDefault)
  {
    if Production(env) then OrDefault(env.prodUrl, ProductionDefault)
    else Trim(Split(OrDefault(env.devUrls, DevelopmentDefault), ',')[0])
  }

  /** obtenerUrlsPermitidas. */
  function AllowedUrls(env: Env): (r: seq<string>)
    ensures |r| >= 1
    ensures Production(env) ==> |r| == 1
  {
    if Production(env) then [OrDefault(env.prodUrl, ProductionDefault)]
    else
      var parts := Split(OrDefault(env.devUrls, DevelopmentDefault), ',');
      seq(|parts|, i requires 0 <= i < |parts| => Trim(parts[i]))
  }

  /** The URL used in links is always the first allowed origin, and in
      development the allowed origins are the trimmed comma-separated
      entries of FRONTEND_URL_DEV. */
  lemma FrontendUrlIsFirstAllowed(env: Env)
    ensures AllowedUrls(env)[0] == FrontendUrl(env)
    ensures !Production(env) ==>
      var parts := Split(OrDefault(env.devUrls, DevelopmentDefault), ',');
      |AllowedUrls(env)| == |parts| && forall i :: 0 <= i < |parts| ==> AllowedUrls(env)[i] == Trim(parts[i])
  {
  }

  /** With nothing configured, development serves localhost:4200 and
      production the hosted frontend. */
  lemma Defaults()
    ensures FrontendUrl(Env(None, None, None)) == "http://localhost:4200"
    ensures FrontendUrl(Env(Some("production"), None, None)) == "https://taskeer.onrender.com"
    ensures AllowedUrls(Env(Some(""), None, Some(""))) == ["http://localhost:4200"]
  {
    DevelopmentDefaultIsOneUrl();
    UnsetDevelopment(Env(None, None, None));
    UnsetDevelopment(Env(Some(""), None, Some("")));
  }

  /** The development default is a single origin with nothing to trim. */
  lemma DevelopmentDefaultIsOneUrl()
    ensures Split(DevelopmentDefault, ',') == [DevelopmentDefault]
    ensures Trim(DevelopmentDefault) == DevelopmentDefault
  {
    var d := DevelopmentDefault;
    assert ',' !in d;
    assert !IsSpace(d[0]) && !IsSpace(d[|d| - 1]);
    TrimFixed(d);
  }

  /** Outside production with FRONTEND_URL_DEV unset or empty, the
      development default is both the link URL and the only origin. */
  lemma UnsetDevelopment(env: Env)
    requires !Production(env) && (env.devUrls.None? || env.devUrls == Some(""))
    requires Split(DevelopmentDefault, ',') == [DevelopmentDefault]
    requires Trim(DevelopmentDefault) == DevelopmentDefault
    ensures FrontendUrl(env) == DevelopmentDefault
    ensures AllowedUrls(env) == [DevelopmentDefault]
  {
  }
}
