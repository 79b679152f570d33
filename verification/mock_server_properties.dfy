/** What the mock server's router promises: the health check, authentication
    before routing, prefix routing and endpoint extraction, first-match
    dispatch, fixture-or-default resolution, and issue creation. */
module MockServerProperties {
  import opened Wrappers
  import opened PyText
  import opened MockServer

  // ------------------------------------------------------------- string facts

  /** A text that lacks a character of `p` does not contain `p`. */
  lemma MissingCharNoOccurrence(s: string, p: string, d: nat)
    requires d < |p| && forall m :: 0 <= m < |s| ==> s[m] != p[d]
    ensures !Contains(s, p)
  {
    forall i: nat ensures !OccursAt(s, p, i) {
      if i + |p| <= |s| {
        assert s[i..i + |p|][d] == s[i + d];
      }
    }
  }

  /** An occurrence of `p` at `i` is the first one when the character `p[d]`
      does not appear where an earlier occurrence would need it. */
  lemma FirstOccurrence(s: string, p: string, i: nat, d: nat)
    requires OccursAt(s, p, i) && d < |p|
    requires forall m :: d <= m < i + d ==> s[m] != p[d]
    ensures Find(s, p) == Some(i)
  {
    forall j: nat | j < i ensures !OccursAt(s, p, j) {
      if j + |p| <= |s| {
        assert s[j..j + |p|][d] == s[j + d];
      }
    }
  }

  /** `p` occurs in the middle of `a + p + b`. */
  lemma ContainsMiddle(a: string, p: string, b: string)
    ensures Contains(a + p + b, p)
  {
    assert (a + p + b)[|a|..|a| + |p|] == p;
    ContainsIff(a + p + b, p, |a|);
  }

  // ------------------------------------------------------ the Jira endpoints

  /** The search endpoint answers 200 whenever it answers. */
  lemma SearchReplyIs200(query: Query, fixtures: Fixtures)
    ensures SearchReply(query, fixtures).Reply? ==> SearchReply(query, fixtures).status == 200
  {
    var text := QueryFirst(query, "maxResults", "50");
    if ParseInt(text).Some? {
      FixtureOrIs200(fixtures, "jira/search", SearchDefault(QueryFirst(query, "jql", ""), ParseInt(text).value));
    }
  }

  /** A fixture lookup answers 200 whenever it answers. */
  lemma FixtureOrIs200(fixtures: Fixtures, name: string, default: Json)
    ensures FixtureOr(fixtures, name, default).Reply? ==> FixtureOr(fixtures, name, default).status == 200
  {
  }

  /** The Jira table answers 200, or 404 with its error body naming the
      endpoint. */
  lemma JiraDispatchReplies(e: string, query: Query, fixtures: Fixtures)
    ensures var o := JiraDispatch(e, query, fixtures);
      o.Reply? ==> (o.status == 200 || o == ErrorReply(404, "Unknown Jira endpoint: " + e))
  {
    if e == "myself" {
      FixtureOrIs200(fixtures, "jira/myself", JiraMyselfDefault);
    } else if e == "serverInfo" {
      FixtureOrIs200(fixtures, "jira/serverInfo", ServerInfoDefault);
    } else if StartsWith(e, "issue/") {
      FixtureOrIs200(fixtures, "jira/issue_" + IssueKey(e), IssueDefault(IssueKey(e)));
    } else if e == "search" {
      SearchReplyIs200(query, fixtures);
    } else if e == "project" {
      FixtureOrIs200(fixtures, "jira/projects", ProjectsDefault);
    }
  }

  /** The Jira patterns never overlap, so the first match is the only match
      and the order of the tests does not change the answer. */
  lemma JiraPatternsDisjoint(e: string)
    ensures (if e == "myself" then 1 else 0) + (if e == "serverInfo" then 1 else 0)
          + (if StartsWith(e, "issue/") then 1 else 0) + (if e == "search" then 1 else 0)
          + (if e == "project" then 1 else 0) <= 1
  {
  }

  /** An endpoint that matches none of the five patterns is a 404 naming it. */
  lemma UnknownJiraEndpointIs404(e: string, query: Query, fixtures: Fixtures)
    requires e != "myself" && e != "serverInfo" && e != "search" && e != "project"
    requires !StartsWith(e, "issue/")
    ensures JiraDispatch(e, query, fixtures) == ErrorReply(404, "Unknown Jira endpoint: " + e)
  {
  }

  /** Reading the search parameters raises nothing: `maxResults` (default
      "50") is an integer for `int()`. */
  predicate SearchQueryReadable(query: Query) {
    ParseInt(QueryFirst(query, "maxResults", "50")).Some?
  }

  /** The fixture a Jira endpoint reads, if it reaches a lookup. */
  function JiraFixtureName(e: string, query: Query): Option<string> {
    if e == "myself" then Some("jira/myself")
    else if e == "serverInfo" then Some("jira/serverInfo")
    else if StartsWith(e, "issue/") then Some("jira/issue_" + IssueKey(e))
    else if e == "search" then (if SearchQueryReadable(query) then Some("jira/search") else None)
    else if e == "project" then Some("jira/projects")
    else None
  }

  /** Each Jira lookup is a fixture-or-default whose default is what the
      endpoint answers with no fixtures at all; the other outcomes do not
      depend on the fixtures. */
  lemma JiraFixtureOrDefault(e: string, query: Query, fixtures: Fixtures)
    ensures var name := JiraFixtureName(e, query);
      if name.Some? then
        JiraDispatch(e, query, map[]).Reply?
        && JiraDispatch(e, query, fixtures) == FixtureOr(fixtures, name.value, JiraDispatch(e, query, map[]).body)
      else JiraDispatch(e, query, fixtures) == JiraDispatch(e, query, map[])
  {
    if StartsWith(e, "issue/") {
      IssueDispatch(e, query, fixtures);
      IssueDispatch(e, query, map[]);
    } else if e == "search" {
      SearchDispatch(query, fixtures);
      SearchDispatch(query, map[]);
      SearchFixtureOrDefault(query, fixtures);
    }
  }

  /** The endpoint `search` is answered by the search handler. */
  lemma SearchDispatch(query: Query, fixtures: Fixtures)
    ensures JiraDispatch("search", query, fixtures) == SearchReply(query, fixtures)
  {
    assert !StartsWith("search", "issue/");
  }

  /** The search lookup is a fixture-or-default once both parameters are
      read; before that the fixtures do not matter. */
  lemma SearchFixtureOrDefault(query: Query, fixtures: Fixtures)
    ensures if SearchQueryReadable(query) then
        SearchReply(query, map[]).Reply?
        && SearchReply(query, fixtures) == FixtureOr(fixtures, "jira/search", SearchReply(query, map[]).body)
      else SearchReply(query, fixtures) == SearchReply(query, map[])
  {
  }

  /** A `maxResults` that `int()` rejects ends a search with an exception
      before any fixture is read, even when a search fixture exists. */
  lemma NonIntegerMaxResultsCrashes(query: Query, fixtures: Fixtures)
    requires "maxResults" in query
    requires ParseInt(query["maxResults"][0]).None?
    ensures SearchReply(query, fixtures) == Crash(NotAnInteger(query["maxResults"][0]))
  {
  }

  /** With no fixture, a search echoes its `jql` (default "") and its integer
      `maxResults` (default 50). */
  lemma SearchEchoesQuery(query: Query, jql: string, maxResults: int)
    requires QueryFirst(query, "jql", "") == jql
    requires QueryFirst(query, "maxResults", "50") == IntText(maxResults)
    requires WithinDigitLimit(maxResults)
    ensures SearchReply(query, map[]) == Reply(200, SearchDefault(jql, maxResults))
  {
    ParseIntText(maxResults);
  }

  /** A `maxResults` numeral longer than `int()` converts raises before any
      reply, as a non-integer does. */
  lemma LongMaxResultsCrashes(query: Query, fixtures: Fixtures, maxResults: int)
    requires QueryFirst(query, "maxResults", "50") == IntText(maxResults)
    requires !WithinDigitLimit(maxResults)
    ensures SearchReply(query, fixtures) == Crash(NotAnInteger(IntText(maxResults)))
  {
    ParseIntTextTooLong(maxResults);
  }

  /** Without a `maxResults` parameter the default body says 50. */
  lemma SearchDefaultsToFifty(query: Query)
    requires "jql" !in query && "maxResults" !in query
    ensures SearchReply(query, map[]) == Reply(200, SearchDefault("", 50))
  {
    assert IntText(50) == "50" == DecimalText(50);
    SearchEchoesQuery(query, "", 50);
  }

  /** The key of `issue/<key>` when `key` holds neither "issue/" nor "?". */
  lemma IssueKeyOf(key: string)
    requires !Contains(key, "issue/") && !Contains(key, "?")
    ensures IssueKey("issue/" + key) == key
  {
    SecondFieldAfterPrefix("issue/", key);
  }

  /** An `issue/...` endpoint looks up the fixture for its key, with the
      generated issue as the default. */
  lemma IssueDispatch(e: string, query: Query, fixtures: Fixtures)
    requires StartsWith(e, "issue/")
    ensures JiraDispatch(e, query, fixtures) == FixtureOr(fixtures, "jira/issue_" + IssueKey(e), IssueDefault(IssueKey(e)))
  {
    assert e != "myself" && e != "serverInfo" by { assert e[0] == 'i'; }
  }

  /** With no fixture, `issue/<key>` generates the issue: its `key` is the key
      from the path and its project the key up to its first `-`. */
  lemma GeneratedIssue(query: Query, fixtures: Fixtures, key: string)
    requires !Contains(key, "issue/") && !Contains(key, "?")
    requires "jira/issue_" + key !in fixtures
    ensures JiraDispatch("issue/" + key, query, fixtures) == Reply(200, IssueDefault(key))
    ensures IssueDefault(key).fields["key"] == JString(key)
    ensures IssueDefault(key).fields["fields"].fields["project"].fields["key"] == JString(Before(key, "-"))
  {
    IssueKeyOf(key);
    StartsWithConcat("issue/", key);
    IssueDispatch("issue/" + key, query, fixtures);
  }

  // ------------------------------------------------ the Confluence endpoints

  /** A content endpoint answers 200 whenever it answers. */
  lemma ContentReplyIs200(e: string, fixtures: Fixtures)
    ensures ContentReply(e, fixtures).Reply? ==> ContentReply(e, fixtures).status == 200
  {
  }

  /** The Confluence table answers 200, or 404 with its error body naming the
      endpoint. */
  lemma ConfluenceDispatchReplies(e: string, fixtures: Fixtures)
    ensures var o := ConfluenceDispatch(e, fixtures);
      o.Reply? ==> (o.status == 200 || o == ErrorReply(404, "Unknown Confluence endpoint: " + e))
  {
    ContentReplyIs200(e, fixtures);
  }

  /** The Confluence patterns never overlap either. */
  lemma WikiPatternsDisjoint(e: string)
    ensures (if e == "user/current" then 1 else 0) + (if e == "space" then 1 else 0)
          + (if StartsWith(e, "content") then 1 else 0) <= 1
  {
  }

  /** An endpoint that matches none of the three patterns is a 404 naming it. */
  lemma UnknownWikiEndpointIs404(e: string, fixtures: Fixtures)
    requires e != "user/current" && e != "space" && !StartsWith(e, "content")
    ensures ConfluenceDispatch(e, fixtures) == ErrorReply(404, "Unknown Confluence endpoint: " + e)
  {
  }

  /** The fixture a Confluence endpoint reads, if it reaches a lookup. */
  function WikiFixtureName(e: string): Option<string> {
    if e == "user/current" then Some("confluence/current_user")
    else if e == "space" then Some("confluence/spaces")
    else if StartsWith(e, "content") && ContentId(e).Some? && IsContentId(ContentId(e).value) then
      Some("confluence/content_" + ContentId(e).value)
    else None
  }

  /** The same fixture-or-default shape for the Confluence lookups. */
  lemma WikiFixtureOrDefault(e: string, fixtures: Fixtures)
    ensures var name := WikiFixtureName(e);
      if name.Some? then
        ConfluenceDispatch(e, map[]).Reply?
        && ConfluenceDispatch(e, fixtures) == FixtureOr(fixtures, name.value, ConfluenceDispatch(e, map[]).body)
      else ConfluenceDispatch(e, fixtures) == ConfluenceDispatch(e, map[])
  {
  }

  /** A `content...` endpoint is answered by the content reply. */
  lemma ContentDispatch(e: string, fixtures: Fixtures)
    requires StartsWith(e, "content")
    ensures ConfluenceDispatch(e, fixtures) == ContentReply(e, fixtures)
  {
    assert e != "user/current" && e != "space" by { assert e[0] == 'c'; }
  }

  /** The id of `content/<id><rest>` when `id` is all digits and `rest` is empty
      or starts a new segment. */
  lemma ContentIdOf(id: string, rest: string)
    requires IsContentId(id) && (rest == [] || rest[0] == '/')
    ensures ContentId("content/" + id + rest) == Some(id)
  {
    var e := "content/" + id + rest;
    assert OccursAt(e, "/", 7);
    FirstOccurrence(e, "/", 7, 0);
    assert e[8..] == id + rest;
    if rest == [] {
      assert id + rest == id;
      MissingCharNoOccurrence(id, "/", 0);
    } else {
      assert OccursAt(id + rest, "/", |id|);
      FirstOccurrence(id + rest, "/", |id|, 0);
      assert (id + rest)[..|id|] == id;
    }
  }

  /** `content/<id>` with a non-empty all-digit id (optionally followed by
      `/...`) serves that page: its fixture, or a generated page with that id. */
  lemma ContentPage(fixtures: Fixtures, id: string, rest: string)
    requires IsContentId(id) && (rest == [] || rest[0] == '/')
    ensures ConfluenceDispatch("content/" + id + rest, fixtures)
         == FixtureOr(fixtures, "confluence/content_" + id, PageDefault(id))
  {
    var e := "content/" + id + rest;
    ContentIdOf(id, rest);
    assert e == "content" + ("/" + id + rest);
    StartsWithConcat("content", "/" + id + rest);
    ContentDispatch(e, fixtures);
    ContentReplyPage(e, id, fixtures);
  }

  /** A `content...` endpoint whose second segment is an id serves that page. */
  lemma ContentReplyPage(e: string, id: string, fixtures: Fixtures)
    requires ContentId(e) == Some(id) && IsContentId(id)
    ensures ContentReply(e, fixtures) == FixtureOr(fixtures, "confluence/content_" + id, PageDefault(id))
  {
  }

  /** Any other endpoint that starts with "content" (including "contents" and
      "content/abc") lists content. */
  lemma ContentList(e: string, fixtures: Fixtures)
    requires StartsWith(e, "content") && !(ContentId(e).Some? && IsContentId(ContentId(e).value))
    ensures ConfluenceDispatch(e, fixtures) == Reply(200, ContentListBody)
  {
  }

  // ------------------------------------------------------- endpoint extraction

  /** Below "/rest/api/2/", the endpoint is the rest of the path up to the next
      "/rest/api/2/", and all of it when there is none. */
  lemma JiraEndpointUnderVersion2(e: string)
    ensures JiraEndpoint(Jira2 + e) == Before(e, Jira2)
    ensures !Contains(e, Jira2) ==> JiraEndpoint(Jira2 + e) == e
  {
    SecondFieldAfterPrefix(Jira2, e);
  }

  /** Below "/rest/api/3/", the endpoint is the rest of the path up to the next
      "/rest/api/3/", provided "/rest/api/2/" occurs nowhere in the path. */
  lemma JiraEndpointUnderVersion3(e: string)
    requires !Contains(Jira3 + e, Jira2)
    ensures JiraEndpoint(Jira3 + e) == Before(e, Jira3)
    ensures !Contains(e, Jira3) ==> JiraEndpoint(Jira3 + e) == e
  {
    SecondFieldAfterPrefix(Jira3, e);
  }

  /** A version-3 path that also holds "/rest/api/2/" is cut at the latter:
      "/rest/api/3/rest/api/2/myself" is served as `myself`. */
  lemma Version3PathCutAtVersion2()
    ensures JiraEndpoint(Jira3 + Jira2 + "myself") == "myself"
  {
    var path := Jira3 + Jira2 + "myself";
    assert path[12..24] == Jira2;
    forall m | 10 <= m < 22 ensures path[m] != Jira2[10] {
      if m < 12 { assert path[m] == Jira3[m]; } else { assert path[m] == Jira2[m - 12]; }
    }
    FirstOccurrence(path, Jira2, 12, 10);
    assert path[24..] == "myself";
    MissingCharNoOccurrence("myself", Jira2, 0);
  }

  /** Below "/wiki/rest/api/", the endpoint is the rest of the path up to the
      next "/wiki/rest/api/". */
  lemma WikiEndpointUnderPrefix(e: string)
    ensures WikiEndpoint(Wiki + e) == Before(e, Wiki)
    ensures !Contains(e, Wiki) ==> WikiEndpoint(Wiki + e) == e
  {
    SecondFieldAfterPrefix(Wiki, e);
  }

  // ---------------------------------------------------------------- requests

  /** The request passes every test that comes before the API family is
      chosen. */
  predicate ReachesRouting(req: Request) {
    req.verb == Get && req.path != "/health" && CheckAuth(req.authorization)
  }

  predicate IsJiraPath(path: string) {
    StartsWith(path, Jira2) || StartsWith(path, Jira3)
  }

  /** `GET /health` answers 200 with the service status whatever the
      Authorization header and the fixtures are. */
  lemma HealthIgnoresAuth(req: Request, fixtures: Fixtures)
    requires req.verb == Get && req.path == "/health"
    ensures Route(req, fixtures) == Reply(200, HealthBody)
  {
  }

  /** A verb other than GET and POST gets the 501 page, whatever its path,
      headers, body and the fixtures, and only such a verb gets it. */
  lemma OtherVerbsUnsupported(req: Request, fixtures: Fixtures)
    ensures Route(req, fixtures).Unsupported? <==> req.verb.Other?
    ensures req.verb.Other? ==> Route(req, fixtures) == Unsupported(req.verb.name)
  {
    match req.verb
    case Get => GetNeverUnsupported(req, fixtures);
    case Post => PostNeverUnsupported(req);
    case Other(_) =>
  }

  lemma GetNeverUnsupported(req: Request, fixtures: Fixtures)
    ensures !HandleGet(req, fixtures).Unsupported?
  {
    var path := req.path;
    if path != "/health" && CheckAuth(req.authorization) {
      if StartsWith(path, Jira2) || StartsWith(path, Jira3) {
        JiraNeverUnsupported(JiraEndpoint(path), req.query, fixtures);
      } else if StartsWith(path, Wiki) {
        ConfluenceNeverUnsupported(WikiEndpoint(path), fixtures);
      }
    }
  }

  lemma JiraNeverUnsupported(e: string, query: Query, fixtures: Fixtures)
    ensures !JiraDispatch(e, query, fixtures).Unsupported?
  {
    if e == "search" {
      SearchNeverUnsupported(query, fixtures);
    }
  }

  lemma SearchNeverUnsupported(query: Query, fixtures: Fixtures)
    ensures !SearchReply(query, fixtures).Unsupported?
  {
    var jql := QueryFirst(query, "jql", "");
    var text := QueryFirst(query, "maxResults", "50");
    match ParseInt(text)
    case None =>
    case Some(n) => FixtureOrNeverUnsupported(fixtures, "jira/search", SearchDefault(jql, n));
  }

  lemma FixtureOrNeverUnsupported(fixtures: Fixtures, name: string, default: Json)
    ensures !FixtureOr(fixtures, name, default).Unsupported?
  {
  }

  lemma ConfluenceNeverUnsupported(e: string, fixtures: Fixtures)
    ensures !ConfluenceDispatch(e, fixtures).Unsupported?
  {
  }

  lemma PostNeverUnsupported(req: Request)
    ensures !HandlePost(req).Unsupported?
  {
  }

  /** Authentication accepts exactly the headers made of "Bearer " or "Basic "
      and any token at all (an empty one included); a missing header is
      refused. */
  lemma AuthAcceptsAnyToken(authorization: Option<string>)
    ensures CheckAuth(authorization) <==>
            exists token :: authorization == Some("Bearer " + token) || authorization == Some("Basic " + token)
  {
    if CheckAuth(authorization) {
      AuthHasScheme(authorization);
    }
    if token :| authorization == Some("Bearer " + token) || authorization == Some("Basic " + token) {
      StartsWithConcat("Bearer ", token);
      StartsWithConcat("Basic ", token);
    }
  }

  /** An accepted header is one of the two schemes followed by a token. */
  lemma AuthHasScheme(authorization: Option<string>)
    requires CheckAuth(authorization)
    ensures exists token :: authorization == Some("Bearer " + token) || authorization == Some("Basic " + token)
  {
    var a := match authorization case Some(a) => a case None => "";
    StartsWithIsPrefix(a, "Bearer ");
    StartsWithIsPrefix(a, "Basic ");
    if "Bearer " <= a {
      assert a == "Bearer " + a[7..] && authorization.Some?;
      assert authorization == Some("Bearer " + a[7..]);
    } else {
      assert a == "Basic " + a[6..] && authorization.Some?;
      assert authorization == Some("Basic " + a[6..]);
    }
  }

  /** A path under a Jira prefix goes to the Jira handler, also when it is
      under the Confluence prefix as well; one under "/wiki/rest/api/" alone
      goes to the Confluence handler; any other is a 404 naming the path. */
  lemma FamilyRouting(req: Request, fixtures: Fixtures)
    requires ReachesRouting(req)
    ensures IsJiraPath(req.path) ==> Route(req, fixtures) == HandleJira(req.path, req.query, fixtures)
    ensures !IsJiraPath(req.path) && StartsWith(req.path, Wiki) ==>
              Route(req, fixtures) == HandleConfluence(req.path, fixtures)
    ensures !IsJiraPath(req.path) && !StartsWith(req.path, Wiki) ==>
              Route(req, fixtures) == ErrorReply(404, "Unknown endpoint: " + req.path)
  {
  }

  /** A routed GET answers 200, or 404 with an error body. */
  lemma RoutedReplies(req: Request, fixtures: Fixtures)
    requires ReachesRouting(req)
    ensures var o := Route(req, fixtures);
      o.Reply? ==>
        (|| o.status == 200
         || o == ErrorReply(404, "Unknown endpoint: " + req.path)
         || o == ErrorReply(404, "Unknown Jira endpoint: " + JiraEndpoint(req.path))
         || o == ErrorReply(404, "Unknown Confluence endpoint: " + WikiEndpoint(req.path)))
  {
    FamilyRouting(req, fixtures);
    JiraDispatchReplies(JiraEndpoint(req.path), req.query, fixtures);
    ConfluenceDispatchReplies(WikiEndpoint(req.path), fixtures);
  }

  /** Issue creation answers 201, or 400 for a body that is not JSON. */
  lemma CreateIssueReplies(req: Request)
    ensures var o := CreateIssue(req);
      o.Reply? ==> (o.status == 201 || o == ErrorReply(400, "Invalid JSON body"))
  {
  }

  /** An authenticated POST answers 201, 400 or 404. */
  lemma PostReplies(req: Request, fixtures: Fixtures)
    requires req.verb == Post && CheckAuth(req.authorization)
    ensures var o := Route(req, fixtures);
      o.Reply? ==>
        (|| o.status == 201
         || o == ErrorReply(400, "Invalid JSON body")
         || o == ErrorReply(404, "Unknown POST endpoint: " + req.path))
  {
    CreateIssueReplies(req);
  }

  /** A 401 is sent exactly to the requests without a valid-looking
      Authorization header, except `GET /health`, and it is sent before any
      routing, whatever the path, body and fixtures. */
  lemma Status401Iff(req: Request, fixtures: Fixtures)
    ensures Route(req, fixtures).Reply? && Route(req, fixtures).status == 401 <==>
            !CheckAuth(req.authorization) && (req.verb == Post || (req.verb == Get && req.path != "/health"))
    ensures Route(req, fixtures).Reply? && Route(req, fixtures).status == 401 ==>
            Route(req, fixtures) == ErrorReply(401, UnauthorizedMessage)
  {
    if ReachesRouting(req) {
      RoutedReplies(req, fixtures);
    } else if req.verb == Post && CheckAuth(req.authorization) {
      PostReplies(req, fixtures);
    }
  }

  /** A reply that is an error reply: a 400, 401 or 404 carrying the API's
      error body. */
  ghost predicate IsErrorReply(o: Outcome) {
    o.Reply? && o.status in {400, 401, 404} && exists message :: o == ErrorReply(o.status, message)
  }

  /** An error reply with one of the three error statuses. */
  lemma ErrorReplyIsError(status: int, message: string)
    requires status in {400, 401, 404}
    ensures IsErrorReply(ErrorReply(status, message))
  {
  }

  /** The routed GET replies other than 200 are error replies. */
  lemma RoutedErrors(req: Request, fixtures: Fixtures)
    requires ReachesRouting(req)
    requires Route(req, fixtures).Reply? && Route(req, fixtures).status != 200
    ensures IsErrorReply(Route(req, fixtures))
  {
    var out := Route(req, fixtures);
    RoutedReplies(req, fixtures);
    var m1 := "Unknown endpoint: " + req.path;
    var m2 := "Unknown Jira endpoint: " + JiraEndpoint(req.path);
    var m3 := "Unknown Confluence endpoint: " + WikiEndpoint(req.path);
    ErrorReplyIsError(404, m1);
    ErrorReplyIsError(404, m2);
    ErrorReplyIsError(404, m3);
  }

  /** The authenticated POST replies other than 201 are error replies. */
  lemma PostErrors(req: Request, fixtures: Fixtures)
    requires req.verb == Post && CheckAuth(req.authorization)
    requires Route(req, fixtures).Reply? && Route(req, fixtures).status != 201
    ensures IsErrorReply(Route(req, fixtures))
  {
    var out := Route(req, fixtures);
    PostReplies(req, fixtures);
    var m1 := "Invalid JSON body";
    var m2 := "Unknown POST endpoint: " + req.path;
    ErrorReplyIsError(400, m1);
    ErrorReplyIsError(404, m2);
  }

  /** Every reply other than 200 and 201 is a 400, 401 or 404 with the API's
      error body `{"errorMessages": [message], "errors": {}}`. */
  lemma ErrorRepliesHaveErrorBody(req: Request, fixtures: Fixtures)
    requires Route(req, fixtures).Reply?
    requires Route(req, fixtures).status != 200 && Route(req, fixtures).status != 201
    ensures IsErrorReply(Route(req, fixtures))
  {
    var out := Route(req, fixtures);
    if !CheckAuth(req.authorization) && (req.verb == Post || (req.verb == Get && req.path != "/health")) {
      Status401Iff(req, fixtures);
      ErrorReplyIsError(401, UnauthorizedMessage);
    } else if ReachesRouting(req) {
      RoutedErrors(req, fixtures);
    } else {
      PostErrors(req, fixtures);
    }
  }

  // ------------------------------------------------------ fixture resolution

  /** The fixture a request reads, if it reaches a fixture lookup at all. */
  function FixtureName(req: Request): Option<string> {
    if !ReachesRouting(req) then None
    else if IsJiraPath(req.path) then JiraFixtureName(JiraEndpoint(req.path), req.query)
    else if StartsWith(req.path, Wiki) then WikiFixtureName(WikiEndpoint(req.path))
    else None
  }

  /** A request that reads a fixture gets that fixture or, failing it, the
      built-in body it gets when there are no fixtures at all; a request that
      reads none does not depend on the fixtures. */
  lemma FixtureOrDefault(req: Request, fixtures: Fixtures)
    ensures FixtureName(req).Some? ==>
      Route(req, map[]).Reply?
      && Route(req, fixtures) == FixtureOr(fixtures, FixtureName(req).value, Route(req, map[]).body)
    ensures FixtureName(req).None? ==> Route(req, fixtures) == Route(req, map[])
  {
    if ReachesRouting(req) {
      FamilyRouting(req, fixtures);
      FamilyRouting(req, map[]);
      JiraFixtureOrDefault(JiraEndpoint(req.path), req.query, fixtures);
      WikiFixtureOrDefault(WikiEndpoint(req.path), fixtures);
    }
  }

  /** Two fixture sets that agree on one name. */
  predicate AgreeOn(f1: Fixtures, f2: Fixtures, name: string) {
    (name in f1 <==> name in f2) && (name in f1 ==> f1[name] == f2[name])
  }

  /** A request reads at most one fixture: two fixture sets that agree on it
      (on nothing at all, when it reads none) give the same outcome. */
  lemma OneFixturePerRequest(req: Request, f1: Fixtures, f2: Fixtures)
    requires FixtureName(req).Some? ==> AgreeOn(f1, f2, FixtureName(req).value)
    ensures Route(req, f1) == Route(req, f2)
  {
    FixtureOrDefault(req, f1);
    FixtureOrDefault(req, f2);
  }

  /** A fixture that exists and is truthy is returned verbatim with 200. */
  lemma TruthyFixtureVerbatim(req: Request, fixtures: Fixtures, v: Json)
    requires FixtureName(req).Some?
    requires var name := FixtureName(req).value; name in fixtures && fixtures[name] == Some(v)
    requires Truthy(v)
    ensures Route(req, fixtures) == Reply(200, v)
  {
    FixtureOrDefault(req, fixtures);
  }

  /** A missing fixture, and an empty or otherwise falsy one (`{}`, `[]`,
      `""`, `0`, `false`, `null`), gives the built-in reply, the same as with
      no fixtures at all, and that reply is a 200. */
  lemma FalsyFixtureFallsBack(req: Request, fixtures: Fixtures)
    requires FixtureName(req).Some?
    requires var name := FixtureName(req).value;
      name !in fixtures || (fixtures[name].Some? && !Truthy(fixtures[name].value))
    ensures Route(req, fixtures) == Route(req, map[])
    ensures Route(req, map[]).Reply? && Route(req, map[]).status == 200
  {
    FixtureOrDefault(req, fixtures);
    FixtureOrDefault(req, map[]);
  }

  /** A fixture file that does not hold JSON ends the request with an
      exception. */
  lemma BrokenFixtureCrashes(req: Request, fixtures: Fixtures)
    requires FixtureName(req).Some?
    requires var name := FixtureName(req).value; name in fixtures && fixtures[name].None?
    ensures Route(req, fixtures) == Crash(BrokenFixture(FixtureName(req).value))
  {
    FixtureOrDefault(req, fixtures);
  }

  /** A key free of "/" keeps "issue/<key>" free of "/rest/api/2/": the only
      "/" left is the one after "issue". */
  lemma IssueEndpointClean(key: string)
    requires forall j :: 0 <= j < |key| ==> key[j] != '/'
    ensures !Contains("issue/" + key, Jira2)
  {
    var e := "issue/" + key;
    forall i: nat ensures !OccursAt(e, Jira2, i) {
      if i + 12 <= |e| {
        if i < 5 {
          assert e[i..i + 12][0] == e[i] != '/';
        } else if i == 5 {
          assert e[i..i + 12][5] == e[10] == key[4] != '/';
        } else {
          assert e[i..i + 12][0] == e[i] == key[i - 6] != '/';
        }
      }
    }
  }

  /** `GET /rest/api/2/issue/<key>` without a fixture, for a key that holds
      neither "/" nor "?", generates the issue with that key. */
  lemma GeneratedIssueRouted(req: Request, key: string)
    requires forall j :: 0 <= j < |key| ==> key[j] != '/' && key[j] != '?'
    requires ReachesRouting(req) && req.path == Jira2 + "issue/" + key
    ensures Route(req, map[]) == Reply(200, IssueDefault(key))
  {
    var e := "issue/" + key;
    assert req.path == Jira2 + e;
    MissingCharNoOccurrence(key, "issue/", 5);
    MissingCharNoOccurrence(key, "?", 0);
    IssueEndpointClean(key);
    JiraEndpointUnderVersion2(e);
    StartsWithConcat(Jira2, e);
    FamilyRouting(req, map[]);
    GeneratedIssue(req.query, map[], key);
  }

  /** Issue PROJ-123 belongs to project PROJ. */
  lemma ExampleIssueProject()
    ensures Before("PROJ-123", "-") == "PROJ"
  {
    var key := "PROJ-123";
    assert OccursAt(key, "-", 4);
    FirstOccurrence(key, "-", 4, 0);
    assert key[..4] == "PROJ";
  }

  // -------------------------------------------------------------------- POST

  /** The authenticated POST paths that create an issue. */
  predicate IsCreatePath(path: string) {
    Contains(path, "/rest/api/2/issue") || Contains(path, "/rest/api/3/issue")
  }

  /** Issue creation is matched anywhere in the path, so "/x/rest/api/2/issues"
      creates an issue too. */
  lemma CreatePathAnywhere(a: string, b: string)
    ensures IsCreatePath(a + "/rest/api/2/issue" + b)
    ensures IsCreatePath(a + "/rest/api/3/issue" + b)
  {
    ContainsMiddle(a, "/rest/api/2/issue", b);
    ContainsMiddle(a, "/rest/api/3/issue", b);
  }

  /** An authenticated POST to a creation path creates an issue, whatever the
      fixtures; any other authenticated POST, `/health` included, is a 404. */
  lemma PostRouting(req: Request, fixtures: Fixtures)
    requires req.verb == Post && CheckAuth(req.authorization)
    ensures IsCreatePath(req.path) ==> Route(req, fixtures) == CreateIssue(req)
    ensures !IsCreatePath(req.path) ==> Route(req, fixtures) == ErrorReply(404, "Unknown POST endpoint: " + req.path)
  {
  }

  /** `{"fields": {"project": {"key": <key>}}}`. */
  function CreateRequestBody(key: string): Json {
    JObject(map["fields" := JObject(map["project" := JObject(map["key" := JString(key)])])])
  }

  /** The project key is read from `fields.project.key`, and is "MOCK" when
      the body is `{}`. */
  lemma ProjectKeyOf(key: string)
    ensures ProjectKey(CreateRequestBody(key)) == Some(JString(key))
    ensures ProjectKey(JObject(map[])) == Some(JString("MOCK"))
  {
  }

  /** A Content-Length header written by `str` is read back as its number
      when `int()` converts numerals that long, and raises otherwise; a
      missing one counts as zero. */
  lemma ContentLengthText(length: int)
    ensures ContentLength(Some(IntText(length))) == if WithinDigitLimit(length) then Some(length) else None
    ensures ContentLength(None) == Some(0)
  {
    if WithinDigitLimit(length) {
      ParseIntText(length);
    } else {
      ParseIntTextTooLong(length);
    }
  }

  /** With a non-zero Content-Length the body is read as sent: JSON, invalid
      JSON, or bytes that are not UTF-8. */
  lemma RequestDataWithLength(req: Request, length: int)
    requires length != 0 && ContentLength(req.contentLength) == Some(length)
    ensures req.payload.Utf8? && req.payload.parsed.Some? ==> RequestData(req) == Parsed(req.payload.parsed.value)
    ensures req.payload == Utf8(None) ==> RequestData(req) == Invalid
    ensures req.payload == NotUtf8 ==> RequestData(req) == Failed(UndecodableBody)
  {
  }

  /** Once the body is read, the issue is created in the project it names. */
  lemma CreateIssueParsed(req: Request, data: Json, key: string)
    requires RequestData(req) == Parsed(data) && ProjectKey(data) == Some(JString(key))
    ensures CreateIssue(req) == Reply(201, CreatedBody(key))
  {
  }

  /** Creating an issue in project `key` answers 201 with id "99999" and the
      key `<key>-999`. */
  lemma CreateIssueEchoesProject(req: Request, key: string, length: int)
    requires length != 0 && ContentLength(req.contentLength) == Some(length)
    requires req.payload == Utf8(Some(CreateRequestBody(key)))
    ensures CreateIssue(req) == Reply(201, CreatedBody(key))
    ensures CreatedBody(key).fields["key"] == JString(key + "-999")
  {
    RequestDataWithLength(req, length);
    ProjectKeyOf(key);
    CreateIssueParsed(req, CreateRequestBody(key), key);
  }

  /** A POST without a body (no Content-Length, or zero) is read as `{}` and
      creates an issue in project MOCK. */
  lemma EmptyBodyCreatesMock(req: Request)
    requires ContentLength(req.contentLength) == Some(0)
    ensures CreateIssue(req) == Reply(201, CreatedBody("MOCK"))
  {
    assert RequestData(req) == Parsed(JObject(map[]));
    ProjectKeyOf("MOCK");
    CreateIssueParsed(req, JObject(map[]), "MOCK");
  }

  /** A body that is not JSON is a 400. */
  lemma InvalidJsonIs400(req: Request, length: int)
    requires length != 0 && ContentLength(req.contentLength) == Some(length)
    requires req.payload == Utf8(None)
    ensures CreateIssue(req) == ErrorReply(400, "Invalid JSON body")
  {
    RequestDataWithLength(req, length);
  }

  /** A 201 comes only from an authenticated POST to a creation path, and
      fixtures never matter to a POST. */
  lemma CreatedOnlyByPost(req: Request, f1: Fixtures, f2: Fixtures)
    ensures Route(req, f1).Reply? && Route(req, f1).status == 201 ==>
              req.verb == Post && CheckAuth(req.authorization) && IsCreatePath(req.path)
    ensures req.verb == Post ==> Route(req, f1) == Route(req, f2)
  {
    if ReachesRouting(req) {
      RoutedReplies(req, f1);
    }
  }
}
