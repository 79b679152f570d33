/** The request router of the mock Jira/Confluence API server
    (tests/mock/server/mock_server.py): given a request and the fixture
    directory, the status and JSON body the handler sends, or the exception
    that ends the request without a response. */
module MockServer {
  import opened Wrappers
  import opened PyText

  // ------------------------------------------------------------- JSON data

  /** A JSON value as `json.load` returns it. */
  datatype Json =
    | JNull
    | JBool(b: bool)
    | JInt(i: int)
    | JReal(r: real)
    | JString(s: string)
    | JArray(items: seq<Json>)
    | JObject(fields: map<string, Json>)

  /** Python truthiness of a loaded JSON value: `null`, `false`, zero, the
      empty string, `[]` and `{}` are false. */
  predicate Truthy(j: Json) {
    match j
    case JNull => false
    case JBool(b) => b
    case JInt(i) => i != 0
    case JReal(r) => r != 0.0
    case JString(s) => s != []
    case JArray(items) => items != []
    case JObject(fields) => fields != map[]
  }

  /** `dict.get(key, default)` on a value that must be a dict; `None` where
      Python raises `AttributeError` because the value is not one. */
  function GetField(j: Json, key: string, default: Json): Option<Json> {
    match j
    case JObject(fields) => Some(if key in fields then fields[key] else default)
    case _ => None
  }

  /** `str(v)` for the JSON values whose text the model states; a float, list
      or dict key is rendered by a placeholder (see README). */
  function DisplayText(j: Json): string {
    match j
    case JString(s) => s
    case JInt(i) => IntText(i)
    case JBool(b) => if b then "True" else "False"
    case JNull => "None"
    case _ => "<unmodelled>"
  }

  // ------------------------------------------------------- requests, replies

  /** The request's verb. The handler defines `do_GET` and `do_POST` only;
      `Other` is any other verb (PUT, DELETE, PATCH, HEAD, ...). */
  datatype Method = Get | Post | Other(name: string)

  /** The request body as the handler reads it: text that is not UTF-8, or
      UTF-8 text with its `json.loads` result (`None` for invalid JSON). */
  datatype Payload = NotUtf8 | Utf8(parsed: Option<Json>)

  /** The query map `parse_qs` returns: with blank values dropped (its
      default), every key it holds has at least one value, and no value is
      empty. */
  type Query = q: map<string, seq<string>> |
    forall k :: k in q ==> q[k] != [] && forall j :: 0 <= j < |q[k]| ==> q[k][j] != ""
    witness map[]

  /** One request, after `urlparse`/`parse_qs` have split the target into a
      path and a query map. `authorization` and `contentLength` are the first
      value of those headers, if any. */
  datatype Request = Request(
    verb: Method,
    path: string,
    query: Query,
    authorization: Option<string>,
    contentLength: Option<string>,
    payload: Payload)

  /** Fixture name (without `.json`) to its file: absent when the file does
      not exist, `None` when it exists but does not hold JSON. */
  type Fixtures = map<string, Option<Json>>

  /** The exception that ends a request without a response. */
  datatype Failure =
    | NotAnInteger(text: string)   // `int()` raised ValueError
    | BrokenFixture(name: string)  // `json.load` raised
    | NotADict                     // `.get` on a JSON value that is not a dict
    | UndecodableBody              // `bytes.decode("utf-8")` raised

  /** What a request gets: a JSON reply, an exception that ends it without a
      reply, or, for a verb the handler has no `do_` method for, the 501
      "Unsupported method" HTML page `BaseHTTPRequestHandler` sends before
      any of the handler's code runs. */
  datatype Outcome =
    | Reply(status: int, body: Json)
    | Crash(failure: Failure)
    | Unsupported(verb: string)

  /** `send_error_json`: `{"errorMessages": [message], "errors": {}}`. */
  function ErrorBody(message: string): Json {
    JObject(map["errorMessages" := JArray([JString(message)]), "errors" := JObject(map[])])
  }

  function ErrorReply(status: int, message: string): Outcome {
    Reply(status, ErrorBody(message))
  }

  const UnauthorizedMessage := "Unauthorized - missing or invalid token"

  const Jira2 := "/rest/api/2/"
  const Jira3 := "/rest/api/3/"
  const Wiki := "/wiki/rest/api/"

  // --------------------------------------------------------- built-in bodies

  const HealthBody := JObject(map["status" := JString("ok"), "service" := JString("mock-api")])

  const JiraMyselfDefault := JObject(map[
    "accountId" := JString("mock-user-123"),
    "displayName" := JString("Mock User"),
    "emailAddress" := JString("mock@example.com"),
    "active" := JBool(true)])

  const ServerInfoDefault := JObject(map[
    "baseUrl" := JString("https://mock.atlassian.net"),
    "version" := JString("1001.0.0"),
    "buildNumber" := JInt(100000),
    "serverTitle" := JString("Mock Jira")])

  /** The generated issue for `key`; its project is the key up to the first `-`. */
  function IssueDefault(key: string): Json {
    JObject(map[
      "key" := JString(key),
      "id" := JString("12345"),
      "fields" := JObject(map[
        "summary" := JString("Mock issue " + key),
        "description" := JString("This is a mock issue for testing"),
        "status" := JObject(map["name" := JString("Open")]),
        "issuetype" := JObject(map["name" := JString("Task")]),
        "project" := JObject(map["key" := JString(Before(key, "-"))])])])
  }

  function SearchDefault(jql: string, maxResults: int): Json {
    JObject(map[
      "startAt" := JInt(0),
      "maxResults" := JInt(maxResults),
      "total" := JInt(1),
      "issues" := JArray([JObject(map[
        "key" := JString("MOCK-1"),
        "fields" := JObject(map[
          "summary" := JString("Mock search result for: " + jql),
          "status" := JObject(map["name" := JString("Open")])])])])])
  }

  const ProjectsDefault := JArray([
    JObject(map["key" := JString("MOCK"), "name" := JString("Mock Project"), "id" := JString("10000")]),
    JObject(map["key" := JString("TEST"), "name" := JString("Test Project"), "id" := JString("10001")])])

  const CurrentUserDefault := JObject(map[
    "accountId" := JString("mock-user-123"),
    "displayName" := JString("Mock User"),
    "email" := JString("mock@example.com"),
    "type" := JString("known")])

  const SpacesDefault := JObject(map[
    "results" := JArray([
      JObject(map["key" := JString("MOCK"), "name" := JString("Mock Space"), "type" := JString("global")]),
      JObject(map["key" := JString("TEST"), "name" := JString("Test Space"), "type" := JString("personal")])]),
    "size" := JInt(2)])

  function PageDefault(id: string): Json {
    JObject(map[
      "id" := JString(id),
      "type" := JString("page"),
      "title" := JString("Mock Page " + id),
      "space" := JObject(map["key" := JString("MOCK")]),
      "body" := JObject(map["storage" := JObject(map[
        "value" := JString("<p>Mock content</p>"),
        "representation" := JString("storage")])])])
  }

  const ContentListBody := JObject(map[
    "results" := JArray([JObject(map["id" := JString("12345"), "type" := JString("page"), "title" := JString("Mock Page")])]),
    "size" := JInt(1)])

  /** The reply to a successful issue creation; the key is the project's text
      followed by "-999". */
  function CreatedBody(projectText: string): Json {
    JObject(map[
      "id" := JString("99999"),
      "key" := JString(projectText + "-999"),
      "self" := JString("https://mock.atlassian.net/rest/api/2/issue/99999")])
  }

  // ---------------------------------------------------------------- routing

  /** `_check_auth`: the Authorization header (empty when absent) starts with
      "Bearer " or "Basic "; the token itself is not looked at. */
  predicate CheckAuth(authorization: Option<string>) {
    var auth := match authorization case Some(a) => a case None => "";
    StartsWith(auth, "Bearer ") || StartsWith(auth, "Basic ")
  }

  /** `_load_fixture` followed by `if fixture: ... else: ...`: a truthy fixture
      is sent as it is, a missing or falsy one gives way to the built-in body. */
  function FixtureOr(fixtures: Fixtures, name: string, default: Json): Outcome {
    if name !in fixtures then Reply(200, default)
    else
      match fixtures[name]
      case None => Crash(BrokenFixture(name))
      case Some(v) => Reply(200, if Truthy(v) then v else default)
  }

  /** `query.get(key, [default])[0]`. */
  function QueryFirst(query: Query, key: string, default: string): string {
    if key in query then query[key][0] else default
  }

  /** The Jira endpoint: the text after the first "/rest/api/2/" up to the next
      one, else the same for "/rest/api/3/", else the whole path. */
  function JiraEndpoint(path: string): string {
    match SecondField(path, Jira2)
    case Some(e) => e
    case None =>
      match SecondField(path, Jira3)
      case Some(e) => e
      case None => path
  }

  /** The issue key of an `issue/...` endpoint: the text after "issue/" up to
      the next "issue/", cut at the first "?". */
  function IssueKey(endpoint: string): string {
    match SecondField(endpoint, "issue/")
    case Some(k) => Before(k, "?")
    case None => Before(endpoint, "?")
  }

  /** `_handle_jira`: the endpoint below the version prefix, then the first
      pattern it matches. */
  function HandleJira(path: string, query: Query, fixtures: Fixtures): Outcome {
    JiraDispatch(JiraEndpoint(path), query, fixtures)
  }

  /** The Jira endpoint table, first match wins. */
  function JiraDispatch(endpoint: string, query: Query, fixtures: Fixtures): Outcome {
    if endpoint == "myself" then
      FixtureOr(fixtures, "jira/myself", JiraMyselfDefault)
    else if endpoint == "serverInfo" then
      FixtureOr(fixtures, "jira/serverInfo", ServerInfoDefault)
    else if StartsWith(endpoint, "issue/") then
      var key := IssueKey(endpoint);
      FixtureOr(fixtures, "jira/issue_" + key, IssueDefault(key))
    else if endpoint == "search" then
      SearchReply(query, fixtures)
    else if endpoint == "project" then
      FixtureOr(fixtures, "jira/projects", ProjectsDefault)
    else
      ErrorReply(404, "Unknown Jira endpoint: " + endpoint)
  }

  /** The search endpoint: both parameters are read, and `maxResults` is
      converted, before the fixture is looked up. */
  function SearchReply(query: Query, fixtures: Fixtures): Outcome {
    var jql := QueryFirst(query, "jql", "");
    var text := QueryFirst(query, "maxResults", "50");
    match ParseInt(text)
    case None => Crash(NotAnInteger(text))
    case Some(maxResults) => FixtureOr(fixtures, "jira/search", SearchDefault(jql, maxResults))
  }

  /** `str.isdigit` for one character of a request path. The request line is
      decoded as ISO-8859-1, so a path holds only code points below 256; among
      those, Python counts the ASCII digits and the superscripts one, two and
      three as digits. */
  predicate IsPathDigit(c: char) {
    IsDigit(c) || c == '\U{B2}' || c == '\U{B3}' || c == '\U{B9}'
  }

  /** `content_id and content_id.isdigit()`. */
  predicate IsContentId(id: string) {
    id != [] && forall j :: 0 <= j < |id| ==> IsPathDigit(id[j])
  }

  /** The Confluence endpoint: the text after the first "/wiki/rest/api/" up to
      the next one, else the whole path. */
  function WikiEndpoint(path: string): string {
    match SecondField(path, Wiki)
    case Some(e) => e
    case None => path
  }

  /** `endpoint.split("/")[1] if "/" in endpoint else None`. */
  function ContentId(endpoint: string): Option<string> {
    SecondField(endpoint, "/")
  }

  /** `_handle_confluence`: the endpoint below the prefix, then the first
      pattern it matches. */
  function HandleConfluence(path: string, fixtures: Fixtures): Outcome {
    ConfluenceDispatch(WikiEndpoint(path), fixtures)
  }

  /** The Confluence endpoint table, first match wins. */
  function ConfluenceDispatch(endpoint: string, fixtures: Fixtures): Outcome {
    if endpoint == "user/current" then
      FixtureOr(fixtures, "confluence/current_user", CurrentUserDefault)
    else if endpoint == "space" then
      FixtureOr(fixtures, "confluence/spaces", SpacesDefault)
    else if StartsWith(endpoint, "content") then
      ContentReply(endpoint, fixtures)
    else
      ErrorReply(404, "Unknown Confluence endpoint: " + endpoint)
  }

  /** A `content...` endpoint: one page when the second segment is all
      digits, the content list otherwise. */
  function ContentReply(endpoint: string, fixtures: Fixtures): Outcome {
    match ContentId(endpoint)
    case Some(id) =>
      if IsContentId(id) then FixtureOr(fixtures, "confluence/content_" + id, PageDefault(id))
      else Reply(200, ContentListBody)
    case None => Reply(200, ContentListBody)
  }

  /** `do_GET`: the health check, then authentication, then the API family. */
  function HandleGet(req: Request, fixtures: Fixtures): Outcome {
    var path := req.path;
    if path == "/health" then Reply(200, HealthBody)
    else if !CheckAuth(req.authorization) then ErrorReply(401, UnauthorizedMessage)
    else if StartsWith(path, Jira2) || StartsWith(path, Jira3) then HandleJira(path, req.query, fixtures)
    else if StartsWith(path, Wiki) then HandleConfluence(path, fixtures)
    else ErrorReply(404, "Unknown endpoint: " + path)
  }

  /** `int(self.headers.get("Content-Length", 0))`. */
  function ContentLength(header: Option<string>): Option<int> {
    match header
    case None => Some(0)
    case Some(text) => ParseInt(text)
  }

  /** The body as `json.loads` sees it: "{}" when the length is zero. */
  function RequestData(req: Request): BodyRead {
    match ContentLength(req.contentLength)
    case None => Failed(NotAnInteger(match req.contentLength case Some(t) => t case None => ""))
    case Some(n) =>
      if n == 0 then Parsed(JObject(map[]))
      else
        match req.payload
        case NotUtf8 => Failed(UndecodableBody)
        case Utf8(None) => Invalid
        case Utf8(Some(data)) => Parsed(data)
  }

  /** The three ways reading the request body can end. */
  datatype BodyRead = Parsed(data: Json) | Invalid | Failed(failure: Failure)

  /** `data.get("fields", {}).get("project", {}).get("key", "MOCK")`. */
  function ProjectKey(data: Json): Option<Json> {
    match GetField(data, "fields", JObject(map[]))
    case None => None
    case Some(fields) =>
      match GetField(fields, "project", JObject(map[]))
      case None => None
      case Some(project) => GetField(project, "key", JString("MOCK"))
  }

  /** `do_POST`: authentication first (there is no health shortcut), then issue
      creation for any path that contains "/rest/api/2/issue" or
      "/rest/api/3/issue". */
  function HandlePost(req: Request): Outcome {
    var path := req.path;
    if !CheckAuth(req.authorization) then ErrorReply(401, UnauthorizedMessage)
    else if Contains(path, "/rest/api/2/issue") || Contains(path, "/rest/api/3/issue") then
      CreateIssue(req)
    else
      ErrorReply(404, "Unknown POST endpoint: " + path)
  }

  /** Issue creation: read the body, then answer with the project's key. */
  function CreateIssue(req: Request): Outcome {
    match RequestData(req)
    case Failed(f) => Crash(f)
    case Invalid => ErrorReply(400, "Invalid JSON body")
    case Parsed(data) =>
      match ProjectKey(data)
      case None => Crash(NotADict)
      case Some(project) => Reply(201, CreatedBody(DisplayText(project)))
  }

  /** The whole handler: what one request gets back, given the fixtures. */
  function Route(req: Request, fixtures: Fixtures): Outcome {
    match req.verb
    case Get => HandleGet(req, fixtures)
    case Post => HandlePost(req)
    case Other(name) => Unsupported(name)
  }
}
