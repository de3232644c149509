/** Request routing of core/router.py: the query string is cut off the path, the
    (path, method) pair is looked up exactly in the routing table, a miss answers
    404 without running any controller, and a hit runs the controller once with the
    parameters taken from the request body (POST) or the query string (GET).
    The response record is `make_response` of core/response.py. URL-decoding
    (`parse_qs`), UTF-8 decoding and Python's `int()` are library behaviour and are
    passed in as functions; controllers are opaque values run through `invoke`. */
module Router {
  import opened Basics

  newtype Byte = b: int | 0 <= b < 256

  /** What `parse_qs` returns: each name with the list of its values. */
  type Params = map<string, seq<string>>

  datatype Response = Response(
    template: Option<string>,
    context: map<string, string>,
    status: string,
    headers: seq<(string, string)>)

  const NotFoundStatus: string := "404 Not Found"
  const HtmlHeaders: seq<(string, string)> := [("Content-Type", "text/html; charset=utf-8")]

  /** `make_response(template, context, status)`: a missing or empty context becomes
      the empty one, and the HTML content type is always set. */
  function MakeResponse(template: Option<string>, context: Option<map<string, string>>, status: string)
    : (r: Response)
    ensures r.template == template && r.status == status && r.headers == HtmlHeaders
    ensures context.None? ==> r.context == map[]
    ensures context.Some? ==> r.context == context.value
  {
    Response(template, if context.Some? then context.value else map[], status, HtmlHeaders)
  }

  /** The WSGI environ: its string entries and the `wsgi.input` stream's contents. */
  datatype Environ = Environ(vars: map<string, string>, input: Option<seq<Byte>>)

  /** Python truthiness of `environ`: None and the empty dict are false. */
  predicate Truthy(env: Option<Environ>) {
    env.Some? && (|env.value.vars| > 0 || env.value.input.Some?)
  }

  /** The library functions the router calls. */
  datatype Library = Library(
    parseQs: string -> Params,
    decodeUtf8: seq<Byte> -> string,
    toInt: string -> Option<int>)

  const GetMethod: string := "GET"
  const PostMethod: string := "POST"

  /** `path.split('?')[0]`: everything before the first '?'. */
  function PathBeforeQuery(path: string): (p: string)
    ensures |p| <= |path| && p == path[..|p|]
    ensures forall i :: 0 <= i < |p| ==> p[i] != '?'
    ensures |p| == |path| || path[|p|] == '?'
  {
    if |path| == 0 || path[0] == '?' then "" else [path[0]] + PathBeforeQuery(path[1..])
  }

  /** `int(environ.get("CONTENT_LENGTH", 0))`, with ValueError and TypeError read as 0. */
  function ContentLength(env: Environ, lib: Library): (n: int)
    ensures "CONTENT_LENGTH" !in env.vars || lib.toInt(env.vars["CONTENT_LENGTH"]).None? ==> n == 0
    ensures "CONTENT_LENGTH" in env.vars && lib.toInt(env.vars["CONTENT_LENGTH"]).Some? ==>
              n == lib.toInt(env.vars["CONTENT_LENGTH"]).value
  {
    if "CONTENT_LENGTH" !in env.vars then 0
    else match lib.toInt(env.vars["CONTENT_LENGTH"])
      case Some(n) => n
      case None => 0
  }

  /** The bytes `_parse_post_data` reads: up to the content length from the input
      stream, nothing when the length is not positive or there is no stream. */
  function ReadBody(env: Environ, lib: Library): (body: seq<Byte>)
    ensures ContentLength(env, lib) <= 0 || env.input.None? ==> body == []
    ensures env.input.Some? && ContentLength(env, lib) > 0 ==>
              && |body| == (if ContentLength(env, lib) < |env.input.value| then ContentLength(env, lib)
                            else |env.input.value|)
              && body == env.input.value[..|body|]
  {
    var size := ContentLength(env, lib);
    if env.input.Some? && size > 0 then
      var stream := env.input.value;
      stream[..if size < |stream| then size else |stream|]
    else []
  }

  /** `_parse_post_data`: the parameters of the body, read up to the declared length. */
  function ParsePostData(env: Environ, lib: Library): (params: Params)
    ensures ContentLength(env, lib) <= 0 || env.input.None? ==> params == lib.parseQs(lib.decodeUtf8([]))
    ensures env.input.Some? && 0 < ContentLength(env, lib) <= |env.input.value| ==>
              params == lib.parseQs(lib.decodeUtf8(env.input.value[..ContentLength(env, lib)]))
    ensures env.input.Some? && ContentLength(env, lib) > |env.input.value| ==>
              params == lib.parseQs(lib.decodeUtf8(env.input.value))
  {
    var body := ReadBody(env, lib);
    assert env.input.Some? && ContentLength(env, lib) > |env.input.value| ==> body == env.input.value[..];
    lib.parseQs(lib.decodeUtf8(body))
  }

  /** Bytes of the stream past the declared length never reach the parameters. */
  lemma PostIgnoresTail(env: Environ, lib: Library, extra: seq<Byte>)
    requires env.input.Some? && ContentLength(env, lib) <= |env.input.value|
    ensures ParsePostData(env.(input := Some(env.input.value + extra)), lib) == ParsePostData(env, lib)
  {
    var longer := env.(input := Some(env.input.value + extra));
    assert ContentLength(longer, lib) == ContentLength(env, lib);
    if ContentLength(env, lib) > 0 {
      assert ReadBody(longer, lib) == ReadBody(env, lib);
    }
  }

  /** A body without a usable length is read as empty, whatever the stream holds. */
  lemma PostWithoutLengthReadsNothing(env: Environ, lib: Library)
    requires "CONTENT_LENGTH" !in env.vars || lib.toInt(env.vars["CONTENT_LENGTH"]).None?
    ensures ParsePostData(env, lib) == ParsePostData(env.(input := None), lib)
  {
  }

  /** Where the controller's parameters come from: the body for POST, a non-empty query
      string for GET, and nothing otherwise. */
  function RequestParams(httpMethod: string, env: Option<Environ>, lib: Library): (params: Params)
    ensures !Truthy(env) ==> params == map[]
    ensures Truthy(env) && httpMethod == PostMethod ==> params == ParsePostData(env.value, lib)
    ensures Truthy(env) && httpMethod == GetMethod ==>
              var q := if "QUERY_STRING" in env.value.vars then env.value.vars["QUERY_STRING"] else "";
              params == if q == "" then map[] else lib.parseQs(q)
    ensures httpMethod != PostMethod && httpMethod != GetMethod ==> params == map[]
  {
    if !Truthy(env) then map[]
    else if httpMethod == PostMethod then ParsePostData(env.value, lib)
    else if httpMethod == GetMethod then
      var q := if "QUERY_STRING" in env.value.vars then env.value.vars["QUERY_STRING"] else "";
      if q == "" then map[] else lib.parseQs(q)
    else map[]
  }

  /** The outcome of routing: the response, and the controller calls made on the way. */
  datatype Routed<C> = Routed(response: Response, calls: seq<(C, Params)>)

  /** `RoutesHandler.route_request`. */
  function RouteRequest<C>(table: map<(string, string), C>, path: string, httpMethod: string,
                           env: Option<Environ>, lib: Library, invoke: (C, Params) -> Response)
    : (out: Routed<C>)
    ensures (PathBeforeQuery(path), httpMethod) !in table ==>
              && out.calls == []
              && out.response == Response(None, map[], NotFoundStatus, HtmlHeaders)
    ensures (PathBeforeQuery(path), httpMethod) in table ==>
              var c := table[(PathBeforeQuery(path), httpMethod)];
              var params := RequestParams(httpMethod, env, lib);
              && out.calls == [(c, params)]
              && out.response == invoke(c, params)
  {
    var key := (PathBeforeQuery(path), httpMethod);
    if key !in table then
      Routed(MakeResponse(None, None, NotFoundStatus), [])
    else
      var params := RequestParams(httpMethod, env, lib);
      Routed(invoke(table[key], params), [(table[key], params)])
  }

  /** Cutting the query string is idempotent and leaves a '?'-free path alone. */
  lemma {:induction false} PathBeforeQueryOfPlainPath(path: string, query: string)
    requires '?' !in path
    ensures PathBeforeQuery(path) == path
    ensures PathBeforeQuery(path + "?" + query) == path
  {
    if |path| > 0 {
      assert (path + "?" + query)[1..] == path[1..] + "?" + query;
      PathBeforeQueryOfPlainPath(path[1..], query);
    }
  }

  /** A query string appended to the path changes nothing about which controller runs
      or what it answers: GET parameters come from the environ's QUERY_STRING. */
  lemma QueryStringDoesNotChangeRoute<C>(table: map<(string, string), C>, path: string, query: string,
                                         httpMethod: string, env: Option<Environ>, lib: Library,
                                         invoke: (C, Params) -> Response)
    requires '?' !in path
    ensures RouteRequest(table, path + "?" + query, httpMethod, env, lib, invoke)
            == RouteRequest(table, path, httpMethod, env, lib, invoke)
  {
    PathBeforeQueryOfPlainPath(path, query);
  }

  // ---------------------------------------------------------------------------
  // The application's routing table.

  /** The controllers registered in `ROUTING_TABLE`. */
  datatype Endpoint = IndexPage | NewMatchPage | CreateMatch | MatchScore | ListMatches | ResetMatch

  const RoutingTable: map<(string, string), Endpoint> := map[
    ("/", GetMethod) := IndexPage,
    ("/new-match", GetMethod) := NewMatchPage,
    ("/new-match", PostMethod) := CreateMatch,
    ("/match-score", GetMethod) := MatchScore,
    ("/match-score", PostMethod) := MatchScore,
    ("/matches", GetMethod) := ListMatches,
    ("/reset-match", PostMethod) := ResetMatch
  ]

  /** The entries of the routing table the lemmas below rely on. */
  lemma ScorePageEntries()
    ensures ("/match-score", GetMethod) in RoutingTable && RoutingTable[("/match-score", GetMethod)] == MatchScore
    ensures ("/match-score", PostMethod) in RoutingTable && RoutingTable[("/match-score", PostMethod)] == MatchScore
  {
  }

  lemma ResetEntries()
    ensures ("/reset-match", PostMethod) in RoutingTable
    ensures ("/reset-match", GetMethod) !in RoutingTable
  {
    assert "/reset-match" != "/" && "/reset-match" != "/new-match";
    assert "/reset-match" != "/match-score" && "/reset-match" != "/matches";
  }

  /** The score page answers POST, and GET with any query string, with the same
      controller. */
  lemma ScorePageRoutes(query: string, env: Option<Environ>, lib: Library,
                        invoke: (Endpoint, Params) -> Response)
    ensures RouteRequest(RoutingTable, "/match-score" + "?" + query, GetMethod, env, lib, invoke).calls
            == [(MatchScore, RequestParams(GetMethod, env, lib))]
    ensures RouteRequest(RoutingTable, "/match-score", PostMethod, env, lib, invoke).calls
            == [(MatchScore, RequestParams(PostMethod, env, lib))]
  {
    PathBeforeQueryOfPlainPath("/match-score", query);
    ScorePageEntries();
  }

  /** The reset endpoint only answers POST: a GET to it is a 404 that runs nothing. */
  lemma ResetRouteIsPostOnly(env: Option<Environ>, lib: Library, invoke: (Endpoint, Params) -> Response)
    ensures RouteRequest(RoutingTable, "/reset-match", GetMethod, env, lib, invoke).calls == []
    ensures RouteRequest(RoutingTable, "/reset-match", GetMethod, env, lib, invoke).response.status
            == NotFoundStatus
  {
    PathBeforeQueryOfPlainPath("/reset-match", "");
    ResetEntries();
  }
}
