/** The credential gate in front of the Swagger UI in src/main.py: the `/login`
    form handler, the `/docs` handler, and `/status`. The configured user name
    and password are parameters (the form handler reads them from the
    environment, the docs handler from the settings object); `baseUrl` is the
    configured `BASE_URL`. */
module SwaggerGate {
  import opened Wrappers
  import QueryString

  /** What a handler answers. */
  datatype Response =
      /** A `RedirectResponse` with its status code and `Location`. */
    | Redirect(status: int, location: string)
      /** An `HTTPException`. */
    | Error(status: int, detail: string)
      /** The Swagger UI page `get_swagger_ui_html` renders. */
    | SwaggerPage(openapiUrl: string, title: string)
      /** A JSON object with one `message` member. */
    | Message(message: string)

  const Unavailable: Response := Error(500, "Swagger cannot be accessed right now")

  /** The login handler's redirect target for the submitted pair, written into
      the query without any escaping. */
  function DocsLocation(baseUrl: string, username: string, password: string): string {
    baseUrl + "/docs?username=" + username + "&password=" + password
  }

  /** `login(username, password)`. */
  function LoginGate(cfgUser: string, cfgPass: string, baseUrl: string, username: string, password: string)
    : (r: Response)
    ensures cfgUser == "" || cfgPass == "" ==> r == Unavailable
    ensures cfgUser != "" && cfgPass != "" ==>
      (r.Redirect? <==> username == cfgUser && password == cfgPass)
    ensures r.Redirect? ==> r.status == 302 && r.location == DocsLocation(baseUrl, username, password)
    ensures cfgUser != "" && cfgPass != "" && !r.Redirect? ==> r == Error(401, "Invalid username or password")
  {
    if cfgUser == "" || cfgPass == "" then Unavailable
    else if username == cfgUser && password == cfgPass then Redirect(302, DocsLocation(baseUrl, username, password))
    else Error(401, "Invalid username or password")
  }

  /** `get_swagger_documentation(username, password)`: absent query parameters
      are `None`; `openapiUrl` is the application's `openapi_url`, where `None`
      and the empty string both fall back to `/openapi.json`. A mismatch sends
      the browser back to the login form with the default status 307. */
  function DocsGate(cfgUser: string, cfgPass: string, baseUrl: string, openapiUrl: Option<string>, appTitle: string,
                    username: Option<string>, password: Option<string>)
    : (r: Response)
    ensures cfgUser == "" || cfgPass == "" ==> r == Unavailable
    ensures cfgUser != "" && cfgPass != "" ==>
      (r.SwaggerPage? <==> username == Some(cfgUser) && password == Some(cfgPass))
    ensures cfgUser != "" && cfgPass != "" && !r.SwaggerPage? ==> r == Redirect(307, baseUrl + "/login")
    ensures r.SwaggerPage? ==>
      && r.title == appTitle + " - Swagger UI"
      && r.openapiUrl != ""
      && (openapiUrl.Some? && openapiUrl.value != "" ==> r.openapiUrl == openapiUrl.value)
      && (openapiUrl.None? || openapiUrl.value == "" ==> r.openapiUrl == "/openapi.json")
  {
    if cfgUser == "" || cfgPass == "" then Unavailable
    else if username != Some(cfgUser) || password != Some(cfgPass) then Redirect(307, baseUrl + "/login")
    else
      var url := if openapiUrl.Some? && openapiUrl.value != "" then openapiUrl.value else "/openapi.json";
      SwaggerPage(url, appTitle + " - Swagger UI")
  }

  /** `status()`: the same payload on every call. */
  function Status(): (r: Response)
    ensures r.Message? && r.message == "Good Day! Everything is up and running :)"
  {
    Message("Good Day! Everything is up and running :)")
  }

  /** A `Location` starting with `//` is a network-path reference: the browser
      resolves it against the host its first segment names, and this
      application never sees the request. */
  predicate LeavesHost(location: string) {
    |location| >= 2 && location[..2] == "//"
  }

  /** A `BASE_URL` (the path prefix every route is registered under) whose
      redirects stay on this host: neither `/` itself nor a network path. */
  predicate OnHostBase(baseUrl: string) {
    baseUrl != "/" && !LeavesHost(baseUrl)
  }

  /** A redirect to `BASE_URL` followed by a path stays on this host exactly when
      the base does. */
  lemma OnHostBaseIff(baseUrl: string, path: string)
    requires |path| >= 2 && path[0] == '/' && path[1] != '/'
    ensures LeavesHost(baseUrl + path) <==> !OnHostBase(baseUrl)
  {
    var l := baseUrl + path;
    if |baseUrl| >= 2 {
      assert l[..2] == baseUrl[..2];
    } else if |baseUrl| == 1 {
      assert l[..2] == [baseUrl[0], '/'];
      if baseUrl[0] == '/' { assert baseUrl == "/"; }
    } else {
      assert l[..2] == path[..2];
    }
  }

  /** The docs handler as the browser reaches it by following a redirect to
      `location`: nothing when the location leaves this host, otherwise the
      handler run on the parameters read back from the location's query. */
  function FollowToDocs(cfgUser: string, cfgPass: string, baseUrl: string, openapiUrl: Option<string>, appTitle: string,
                        location: string): (r: Option<Response>)
    ensures r.None? <==> LeavesHost(location)
  {
    if LeavesHost(location) then None
    else
      Some(DocsGate(cfgUser, cfgPass, baseUrl, openapiUrl, appTitle,
                    QueryString.QueryParam(location, "username"), QueryString.QueryParam(location, "password")))
  }

  /** A credential that reads back from an unescaped query unchanged: none of the
      characters that end a parameter, end the query, or decode to something
      else. */
  predicate QuerySafe(s: string) {
    '&' !in s && '#' !in s && '+' !in s && '%' !in s
  }

  /** The two parameters a docs redirect carries, decoded, whatever characters
      the credentials hold besides `&` and `#`. */
  lemma DocsParams(baseUrl: string, u: string, p: string)
    requires '?' !in baseUrl && '#' !in baseUrl
    requires '&' !in u && '#' !in u && '&' !in p && '#' !in p
    ensures QueryString.QueryParam(DocsLocation(baseUrl, u, p), "username") == Some(QueryString.DecodeComponent(u))
    ensures QueryString.QueryParam(DocsLocation(baseUrl, u, p), "password") == Some(QueryString.DecodeComponent(p))
  {
    var head := baseUrl + "/docs";
    assert DocsLocation(baseUrl, u, p) == head + "?" + ("username" + "=" + u) + "&" + ("password" + "=" + p);
    QueryString.TwoParams(head, "username", u, "password", p);
  }

  /** Round trip as written: the redirect of a successful login opens the docs
      for the same configured pair, provided neither credential contains a
      character that the unescaped query changes. */
  lemma LoginThenDocs(cfgUser: string, cfgPass: string, baseUrl: string, openapiUrl: Option<string>, appTitle: string)
    requires cfgUser != "" && cfgPass != ""
    requires QuerySafe(cfgUser) && QuerySafe(cfgPass)
    requires '?' !in baseUrl && '#' !in baseUrl && OnHostBase(baseUrl)
    ensures var r := LoginGate(cfgUser, cfgPass, baseUrl, cfgUser, cfgPass);
      && r.Redirect?
      && var page := FollowToDocs(cfgUser, cfgPass, baseUrl, openapiUrl, appTitle, r.location);
         page.Some? && page.value.SwaggerPage?
  {
    DocsParams(baseUrl, cfgUser, cfgPass);
    DocsStaysOnHost(baseUrl, cfgUser, cfgPass);
  }

  /** The docs redirect leaves this host exactly when the base does. */
  lemma DocsStaysOnHost(baseUrl: string, u: string, p: string)
    ensures LeavesHost(DocsLocation(baseUrl, u, p)) <==> !OnHostBase(baseUrl)
  {
    var path := "/docs?username=" + u + "&password=" + p;
    assert DocsLocation(baseUrl, u, p) == baseUrl + path;
    OnHostBaseIff(baseUrl, path);
  }

  /** Under the configured default `BASE_URL` of `/`, the redirect of every
      successful login is `//docs?…`: the browser leaves for a host named
      `docs`, and the docs handler is never reached. */
  lemma RootBaseLeavesHost(cfgUser: string, cfgPass: string, openapiUrl: Option<string>, appTitle: string)
    requires cfgUser != "" && cfgPass != ""
    ensures var r := LoginGate(cfgUser, cfgPass, "/", cfgUser, cfgPass);
      && r.Redirect?
      && LeavesHost(r.location)
      && FollowToDocs(cfgUser, cfgPass, "/", openapiUrl, appTitle, r.location).None?
  {
    DocsStaysOnHost("/", cfgUser, cfgPass);
  }

  /** The round trip fails as written for every configured password that the
      query does not read back unchanged: the only correct login is redirected
      to a URL the docs handler turns away. */
  lemma MangledPasswordBounces(cfgUser: string, cfgPass: string, baseUrl: string, openapiUrl: Option<string>,
                               appTitle: string)
    requires cfgUser != "" && cfgPass != ""
    requires '&' !in cfgUser && '#' !in cfgUser && '&' !in cfgPass && '#' !in cfgPass
    requires '?' !in baseUrl && '#' !in baseUrl && OnHostBase(baseUrl)
    requires QueryString.DecodeComponent(cfgPass) != cfgPass
    ensures var r := LoginGate(cfgUser, cfgPass, baseUrl, cfgUser, cfgPass);
      && r.Redirect?
      && FollowToDocs(cfgUser, cfgPass, baseUrl, openapiUrl, appTitle, r.location) == Some(Redirect(307, baseUrl + "/login"))
  {
    DocsParams(baseUrl, cfgUser, cfgPass);
    DocsStaysOnHost(baseUrl, cfgUser, cfgPass);
  }

  /** One such password: `+` reads back as a space. */
  lemma PlusPasswordBounces(baseUrl: string)
    requires '?' !in baseUrl && '#' !in baseUrl && OnHostBase(baseUrl)
    ensures var r := LoginGate("admin", "+", baseUrl, "admin", "+");
      && r.Redirect?
      && FollowToDocs("admin", "+", baseUrl, None, "Chat", r.location) == Some(Redirect(307, baseUrl + "/login"))
  {
    assert QueryString.DecodeComponent("+") == " ";
    MangledPasswordBounces("admin", "+", baseUrl, None, "Chat");
  }

  /** The login handler with both credentials escaped before they go into the
      query. */
  function LoginGateEncoded(cfgUser: string, cfgPass: string, baseUrl: string, username: string, password: string)
    : (r: Response)
    ensures cfgUser == "" || cfgPass == "" ==> r == Unavailable
    ensures cfgUser != "" && cfgPass != "" ==>
      (r.Redirect? <==> username == cfgUser && password == cfgPass)
    ensures r.Redirect? ==> r.status == 302 && r.location == DocsLocation(baseUrl,
      QueryString.EncodeComponent(username), QueryString.EncodeComponent(password))
    ensures cfgUser != "" && cfgPass != "" && !r.Redirect? ==> r == Error(401, "Invalid username or password")
  {
    if cfgUser == "" || cfgPass == "" then Unavailable
    else if username == cfgUser && password == cfgPass then
      Redirect(302, DocsLocation(baseUrl, QueryString.EncodeComponent(username), QueryString.EncodeComponent(password)))
    else Error(401, "Invalid username or password")
  }

  /** Round trip with escaping: every successful login reaches the docs, whatever
      characters the credentials hold. */
  lemma EncodedLoginThenDocs(cfgUser: string, cfgPass: string, baseUrl: string, openapiUrl: Option<string>, appTitle: string)
    requires cfgUser != "" && cfgPass != ""
    requires '?' !in baseUrl && '#' !in baseUrl && OnHostBase(baseUrl)
    ensures var r := LoginGateEncoded(cfgUser, cfgPass, baseUrl, cfgUser, cfgPass);
      && r.Redirect?
      && var page := FollowToDocs(cfgUser, cfgPass, baseUrl, openapiUrl, appTitle, r.location);
         page.Some? && page.value.SwaggerPage?
  {
    var u := QueryString.EncodeComponent(cfgUser);
    var p := QueryString.EncodeComponent(cfgPass);
    assert '&' !in u && '#' !in u && '&' !in p && '#' !in p;
    DocsParams(baseUrl, u, p);
    QueryString.DecodeEncode(cfgUser);
    QueryString.DecodeEncode(cfgPass);
    DocsStaysOnHost(baseUrl, u, p);
  }
}
