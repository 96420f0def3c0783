/**
 * The frontend's fetch wrapper: the request URL is the API base URL
 * followed by the path, with "/api" put in front of paths that lack it;
 * `credentials` is always "include" and JSON is the default content type,
 * but headers the caller names win. `apiWithAuth` adds a bearer
 * Authorization header the same way. `fetch` itself is a parameter.
 */
module ApiClient {
  import opened Common
  import AuthMiddleware

  const DEFAULT_API_URL: string := "http://localhost:3001"

  /** `process.env.NEXT_PUBLIC_API_URL || 'http://localhost:3001'`: an unset or empty variable gives the default. */
  function ApiUrl(env: Option<string>): (url: string)
    ensures Given(env) ==> url == env.value
    ensures !Given(env) ==> url == DEFAULT_API_URL
    ensures url != ""
  {
    if Given(env) then env.value else DEFAULT_API_URL
  }

  /** The path with "/api" in front, unless it already starts with "/api". */
  function FullPath(path: string): (full: string)
    ensures StartsWith(full, "/api")
    ensures StartsWith(path, "/api") ==> full == path
    ensures !StartsWith(path, "/api") ==> full == "/api" + path
  {
    if StartsWith(path, "/api") then path
    else
      assert ("/api" + path)[..4] == "/api";
      "/api" + path
  }

  /** Normalising twice is normalising once. */
  lemma FullPathIdempotent(path: string)
    ensures FullPath(FullPath(path)) == FullPath(path)
  {
  }

  /** Normalisation only ever adds the prefix: the caller's path is the tail of the result. */
  lemma FullPathEndsWithPath(path: string)
    ensures |path| <= |FullPath(path)| && FullPath(path)[|FullPath(path)| - |path|..] == path
  {
    if !StartsWith(path, "/api") {
      assert ("/api" + path)[4..] == path;
    }
  }

  type Headers = map<string, string>

  /** The parts of a `RequestInit` the wrapper reads or writes. */
  datatype Init = Init(httpMethod: Option<string>, body: Option<string>, credentials: Option<string>, headers: Headers)

  /** `{...options, credentials: 'include', headers: {'Content-Type': 'application/json', ...options.headers}}` */
  function FetchInit(options: Init): (r: Init)
    ensures r.httpMethod == options.httpMethod && r.body == options.body
    ensures r.credentials == Some("include")
    ensures r.headers.Keys == options.headers.Keys + {"Content-Type"}
    ensures forall k :: k in options.headers ==> r.headers[k] == options.headers[k]
    ensures "Content-Type" !in options.headers ==> r.headers["Content-Type"] == "application/json"
  {
    options.(credentials := Some("include"), headers := map["Content-Type" := "application/json"] + options.headers)
  }

  /** The options `apiWithAuth` hands to `api`: a bearer Authorization header unless the caller supplies one. */
  function AuthInit(token: string, options: Init): (r: Init)
    ensures r.httpMethod == options.httpMethod && r.body == options.body && r.credentials == options.credentials
    ensures r.headers.Keys == options.headers.Keys + {"Authorization"}
    ensures forall k :: k in options.headers ==> r.headers[k] == options.headers[k]
    ensures "Authorization" !in options.headers ==> r.headers["Authorization"] == AuthMiddleware.BEARER_PREFIX + token
  {
    options.(headers := map["Authorization" := AuthMiddleware.BEARER_PREFIX + token] + options.headers)
  }

  /**
   * What an authenticated request finally carries: the caller's headers
   * unchanged, plus Authorization and Content-Type defaults for the ones the
   * caller left out, and credentials "include" whatever the caller said.
   */
  lemma AuthenticatedHeaders(token: string, options: Init)
    ensures var h := FetchInit(AuthInit(token, options)).headers;
      && h.Keys == options.headers.Keys + {"Authorization", "Content-Type"}
      && (forall k :: k in options.headers ==> h[k] == options.headers[k])
      && ("Authorization" !in options.headers ==> h["Authorization"] == "Bearer " + token)
      && ("Content-Type" !in options.headers ==> h["Content-Type"] == "application/json")
    ensures FetchInit(AuthInit(token, options)).credentials == Some("include")
  {
  }

  /** Unless the caller overrides it, the backend's `authenticate` reads back exactly the token sent. */
  lemma BearerHeaderReadBack(token: string, options: Init)
    requires "Authorization" !in options.headers
    ensures AuthMiddleware.BearerToken(Some(FetchInit(AuthInit(token, options)).headers["Authorization"])) == Some(token)
  {
    AuthMiddleware.BearerRoundTrip(token);
  }

  /** The URL `api` fetches. */
  function RequestUrl(env: Option<string>, path: string): (url: string)
    ensures StartsWith(url, ApiUrl(env))
    ensures url[|ApiUrl(env)|..] == FullPath(path) && StartsWith(url[|ApiUrl(env)|..], "/api")
  {
    var base := ApiUrl(env);
    assert (base + FullPath(path))[..|base|] == base;
    assert (base + FullPath(path))[|base|..] == FullPath(path);
    base + FullPath(path)
  }

  /** What `fetch` resolved to; `text` is None when reading the body as text fails. */
  datatype Response<J> = Response(status: nat, statusText: string, text: Option<string>, json: J)

  /** `res.ok`: a 2xx status. */
  predicate IsOk<J>(res: Response<J>)
  {
    200 <= res.status <= 299
  }

  datatype Outcome<J> = Returned(body: J) | Threw(message: string)

  const ERROR_PREFIX: string := "API error: "

  /** The message thrown for a non-OK response: status, status text and body text, or "Unknown error". */
  function ErrorMessage<J>(res: Response<J>): string
  {
    ERROR_PREFIX + NatToString(res.status) + " " + res.statusText + " - "
      + (if res.text.Some? then res.text.value else "Unknown error")
  }

  /** The end of `api`: the parsed body of an OK response, an error for any other. */
  function Finish<J>(res: Response<J>): (r: Outcome<J>)
    ensures r.Returned? <==> IsOk(res)
    ensures r.Returned? ==> r.body == res.json
    ensures r.Threw? ==> StartsWith(r.message, ERROR_PREFIX) && OccursAt(r.message, NatToString(res.status), |ERROR_PREFIX|)
  {
    if IsOk(res) then Returned(res.json)
    else
      var m := ErrorMessage(res);
      assert m[..|ERROR_PREFIX|] == ERROR_PREFIX;
      assert m[|ERROR_PREFIX|..|ERROR_PREFIX| + |NatToString(res.status)|] == NatToString(res.status);
      Threw(m)
  }

  /** A thrown message names the status: the status digits occur in it. */
  lemma ErrorNamesStatus<J>(res: Response<J>)
    requires !IsOk(res)
    ensures Finish(res).Threw? && Contains(Finish(res).message, NatToString(res.status))
  {
    var m := Finish(res).message;
    assert OccursAt(m, NatToString(res.status), |ERROR_PREFIX|);
  }

  /** `api(path, options)` with `fetch` given as a function of the URL and the init. */
  function Api<J>(env: Option<string>, path: string, options: Init, fetch: (string, Init) -> Response<J>): Outcome<J>
  {
    Finish(fetch(RequestUrl(env, path), FetchInit(options)))
  }

  /** `apiWithAuth(path, token, options)` */
  function ApiWithAuth<J>(env: Option<string>, path: string, token: string, options: Init,
                          fetch: (string, Init) -> Response<J>): Outcome<J>
  {
    Api(env, path, AuthInit(token, options), fetch)
  }

  /** A path given with or without its "/api" prefix reaches the same URL with the same request. */
  lemma PrefixOptional<J>(env: Option<string>, path: string, token: string, options: Init, fetch: (string, Init) -> Response<J>)
    ensures ApiWithAuth(env, FullPath(path), token, options, fetch) == ApiWithAuth(env, path, token, options, fetch)
  {
    FullPathIdempotent(path);
  }
}
