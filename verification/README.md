# Mock API router and two lint scripts, modelled in Dafny

This project models three small programs of the repository and proves what
they promise.

- **The mock Jira/Confluence API server** (`tests/mock/server/mock_server.py`,
  modules `MockServer` and `MockServerProperties`). A request is a method, a
  path, the query map that `parse_qs` returns (every key with at least one
  value, and no value empty), the Authorization and Content-Length headers and a
  body. The fixture directory is a map from fixture name to an optional JSON
  value: absent means no file, `None` means a file that does not hold JSON.
  `Route(req, fixtures)` returns a reply, the exception that ends the
  request without one, or, for a verb other than GET and POST, the 501 page
  `BaseHTTPRequestHandler` sends on its own. The exceptions are a non-integer `maxResults` or
  Content-Length, a broken fixture, `.get` on a value that is not a dict,
  and an undecodable body. The model follows the handler's ordered chain of
  tests:
  - the `/health` shortcut;
  - the `Bearer `/`Basic ` check;
  - routing by API family;
  - the Jira and Confluence endpoint tables, with fixture-or-default replies;
  - issue creation by POST.
- **The trailing-whitespace checker and fixer**
  (`tools/lint/scripts/trailing_whitespace.py`, module `TrailingWhitespace`).
  - The substitution of `TRAILING_RE` is modelled on any string, with the
    regex's lookahead worked out by hand.
  - `check_or_fix_file` is a method whose loop strips and counts lines.
  - `should_exclude` is modelled with `Path.name`/`Path.suffix`.
  - `_normalize_paths` is a method.
  - `main`'s candidate list, its loop over the candidates (a method over a
    map from path to file state) and its exit code are modelled.
- **The emoji checker** (`tools/lint/check_no_emoji_text.py`, module
  `EmojiCheck`).
  - `is_forbidden_char` is modelled.
  - `scan_file` is a method with the two nested loops and the capped early
    return.
  - `main` is a method that collects the findings of every existing file and
    returns the exit status, the first 50 findings and the count of the rest.

Two shared modules hold the Python `str` operations these programs use.
- `PyText`: `find`, `split(sep)[1]`, `startswith`, `strip`, `int()`, `str()`
  of an integer and `:04X` formatting. `int()` refuses numerals of more
  than 4300 digits, as CPython does by default.
- `LineSplit`: `str.splitlines`, with and without `keepends`, over Python's
  full set of line boundaries.

Each of these operations is pinned down by its own contract or by a lemma
next to it. `strip()` is pinned by `StripPadded`, `int()` by
`ParseIntNumeral` with `ParseIntOnlyNumerals`, and the underscore removal
inside `int()` by `DropUnderscoresConcat` with `DropUnderscoresChar`.

A lone `"\r"` is a line boundary for `splitlines`, but `TRAILING_RE` strips
blanks only before `"\n"`, `"\r\n"` or the end. So the fixer leaves `"a \r"`
alone. After a fix a lone `"\r"` can meet a `"\n"` and form a new `"\r\n"`
line. Fixing `"a \r  \n"` therefore gives `"a \r\n"`, and that text has a
changed line again (`TrailingWhitespace.FixTwiceDiffers`). Stripping is
idempotent on every single line (`TrailingWhitespace.StripLineIdempotent`).

## Model

| member | source | states |
|---|---|---|
| MockServerProperties.HealthIgnoresAuth | tests/mock/server/mock_server.py:88-90 | a GET of exactly `/health` answers 200 `{"status":"ok","service":"mock-api"}` whatever the Authorization header and the fixtures |
| MockServerProperties.AuthAcceptsAnyToken | tests/mock/server/mock_server.py:71-77 | authentication succeeds exactly when the header is `"Bearer "` or `"Basic "` followed by any token; a missing header fails |
| MockServerProperties.AuthHasScheme | tests/mock/server/mock_server.py:73-76 | an accepted header is present and is one of the two schemes followed by a token |
| MockServerProperties.Status401Iff | tests/mock/server/mock_server.py:88-95 | the reply is 401 exactly when authentication fails and the request is a POST or a GET of a path other than `/health`, and then it is the `send_error_json` body with the unauthorized message |
| MockServerProperties.OtherVerbsUnsupported | tests/mock/server/mock_server.py:40 | the handler class defines only `do_GET` and `do_POST`, so exactly the other verbs get the library's 501 page, whatever the headers, path and fixtures |
| MockServerProperties.FamilyRouting | tests/mock/server/mock_server.py:98-103 | an authenticated GET goes to the Jira handler for `/rest/api/2/` or `/rest/api/3/`, else to the Confluence handler for `/wiki/rest/api/`, else gets 404 "Unknown endpoint: <path>" |
| MockServerProperties.RoutedReplies | tests/mock/server/mock_server.py:97-103 | a routed GET that replies answers 200 or one of the three 404 errors with the endpoint or path in its message |
| MockServerProperties.RoutedErrors | tests/mock/server/mock_server.py:58-60 | every non-200 reply of a routed GET has the error body `{"errorMessages":[message],"errors":{}}` |
| MockServerProperties.PostErrors | tests/mock/server/mock_server.py:58-60 | every non-201 reply of an authenticated POST has the error body |
| MockServerProperties.ErrorRepliesHaveErrorBody | tests/mock/server/mock_server.py:58-60 | every JSON reply of the handler other than 200 and 201 has the error body and status 400, 401 or 404 |
| MockServerProperties.JiraEndpointUnderVersion2 | tests/mock/server/mock_server.py:110-111 | below `/rest/api/2/` the endpoint is the text up to the next `/rest/api/2/`, and all of it when there is none |
| MockServerProperties.JiraEndpointUnderVersion3 | tests/mock/server/mock_server.py:112-113 | below `/rest/api/3/` (with no `/rest/api/2/` in the path) the endpoint is the text up to the next `/rest/api/3/` |
| MockServerProperties.Version3PathCutAtVersion2 | tests/mock/server/mock_server.py:110-113 | the version 2 prefix is looked for first, so `/rest/api/3//rest/api/2/myself` has endpoint `myself` |
| MockServerProperties.WikiEndpointUnderPrefix | tests/mock/server/mock_server.py:216-218 | the Confluence endpoint is the text after `/wiki/rest/api/` up to its next occurrence |
| MockServerProperties.JiraPatternsDisjoint | tests/mock/server/mock_server.py:118-199 | at most one of the five Jira endpoint tests matches, so the order of the table does not decide which one answers |
| MockServerProperties.JiraDispatchReplies | tests/mock/server/mock_server.py:117-212 | a Jira endpoint that replies answers 200 or 404 "Unknown Jira endpoint: <endpoint>" |
| MockServerProperties.UnknownJiraEndpointIs404 | tests/mock/server/mock_server.py:212 | an endpoint matching none of the five tests gets 404 "Unknown Jira endpoint: <endpoint>" |
| MockServerProperties.JiraFixtureOrDefault | tests/mock/server/mock_server.py:118-210 | each Jira lookup reads one fixed fixture name (`project` reads `jira/projects`) and answers it or the body it gives with no fixtures; outcomes without a lookup do not depend on the fixtures |
| MockServerProperties.SearchDispatch | tests/mock/server/mock_server.py:173 | the endpoint `search` is answered by the search handler |
| MockServerProperties.SearchFixtureOrDefault | tests/mock/server/mock_server.py:173-195 | once both parameters are read, search answers fixture `jira/search` or its default; when reading them fails the outcome does not depend on the fixtures |
| MockServerProperties.NonIntegerMaxResultsCrashes | tests/mock/server/mock_server.py:175 | a `maxResults` that `int()` rejects raises before any reply, even when a search fixture exists |
| MockServerProperties.SearchEchoesQuery | tests/mock/server/mock_server.py:174-195 | with no fixture, the search body echoes `jql` in the summary and `maxResults` as its integer value, for a `maxResults` written as `str(n)` with at most 4300 digits |
| MockServerProperties.LongMaxResultsCrashes | tests/mock/server/mock_server.py:175 | a `maxResults` numeral of more than 4300 digits raises before any reply |
| MockServerProperties.SearchDefaultsToFifty | tests/mock/server/mock_server.py:174-175 | without parameters, search uses an empty `jql` and 50 results |
| MockServerProperties.IssueKeyOf | tests/mock/server/mock_server.py:151 | the key of `issue/<key>` is `key` when it holds no `issue/` and no `?` |
| MockServerProperties.IssueDispatch | tests/mock/server/mock_server.py:150-169 | an `issue/` endpoint answers fixture `jira/issue_<key>` or the generated issue for that key |
| MockServerProperties.GeneratedIssue | tests/mock/server/mock_server.py:150-169 | with no fixture the generated issue has `key` equal to the key and `fields.project.key` equal to the key up to its first `-` |
| MockServerProperties.GeneratedIssueRouted | tests/mock/server/mock_server.py:98-169 | an authenticated GET of `/rest/api/2/issue/<key>` (key without `/` or `?`) gets the generated issue for `key` |
| MockServerProperties.ExampleIssueProject | tests/mock/server/mock_server.py:166 | the project of `PROJ-123` is `PROJ` |
| MockServerProperties.ConfluenceDispatchReplies | tests/mock/server/mock_server.py:220-287 | a Confluence endpoint that replies answers 200 or 404 "Unknown Confluence endpoint: <endpoint>" |
| MockServerProperties.WikiPatternsDisjoint | tests/mock/server/mock_server.py:221-254 | at most one of the three Confluence endpoint tests matches |
| MockServerProperties.UnknownWikiEndpointIs404 | tests/mock/server/mock_server.py:287 | any other endpoint gets 404 "Unknown Confluence endpoint: <endpoint>" |
| MockServerProperties.WikiFixtureOrDefault | tests/mock/server/mock_server.py:221-275 | each Confluence lookup reads one fixed fixture name and answers it or its no-fixture body; the content list does not depend on the fixtures |
| MockServerProperties.ContentDispatch | tests/mock/server/mock_server.py:254 | every endpoint starting with `content` (even `contents`) is handled as content |
| MockServerProperties.ContentIdOf | tests/mock/server/mock_server.py:255 | the content id is the second `/`-segment of the endpoint |
| MockServerProperties.ContentPage | tests/mock/server/mock_server.py:254-275 | `content/<digits>[/...]` answers fixture `confluence/content_<id>` or the default page whose `id` is that segment |
| MockServerProperties.ContentReplyPage | tests/mock/server/mock_server.py:255-275 | a content endpoint whose second segment is a non-empty digit string answers that page |
| MockServerProperties.ContentList | tests/mock/server/mock_server.py:276-285 | any other content endpoint answers the one-item content list |
| MockServerProperties.FixtureOrDefault | tests/mock/server/mock_server.py:62-69 | a request reads at most one fixture and gets it or the body it gets with no fixtures; a request that reads none does not depend on the fixtures |
| MockServerProperties.OneFixturePerRequest | tests/mock/server/mock_server.py:62-69 | two fixture sets that agree on the one fixture a request reads give it the same outcome |
| MockServerProperties.TruthyFixtureVerbatim | tests/mock/server/mock_server.py:119-121 | a fixture that exists and is truthy is sent verbatim with 200 |
| MockServerProperties.FalsyFixtureFallsBack | tests/mock/server/mock_server.py:122-130 | a missing or falsy fixture (`{}`, `[]`, `0`, `""`, `null`, `false`) gives the built-in 200 body |
| MockServerProperties.BrokenFixtureCrashes | tests/mock/server/mock_server.py:66-67 | a fixture file that is not JSON raises instead of replying |
| MockServerProperties.CreatePathAnywhere | tests/mock/server/mock_server.py:301 | issue creation is matched anywhere in the path, so `/x/rest/api/2/issues` creates an issue |
| MockServerProperties.PostRouting | tests/mock/server/mock_server.py:300-326 | an authenticated POST creates an issue exactly when the path contains an issue prefix, and gets 404 "Unknown POST endpoint: <path>" otherwise |
| MockServerProperties.CreateIssueReplies | tests/mock/server/mock_server.py:301-324 | issue creation answers 201 or 400 "Invalid JSON body" when it replies |
| MockServerProperties.PostReplies | tests/mock/server/mock_server.py:289-326 | an authenticated POST that replies answers 201, 400 or the 404 for its path |
| MockServerProperties.ProjectKeyOf | tests/mock/server/mock_server.py:314 | the project key is read from `fields.project.key`, and is "MOCK" for the body `{}` |
| MockServerProperties.ContentLengthText | tests/mock/server/mock_server.py:302 | a Content-Length written as an integer is read as that integer when it has at most 4300 digits and raises otherwise; a missing one is read as 0 |
| MockServerProperties.RequestDataWithLength | tests/mock/server/mock_server.py:302-312 | with a non-zero length the body is the parsed JSON, invalid JSON, or an undecoding error |
| MockServerProperties.CreateIssueParsed | tests/mock/server/mock_server.py:314-323 | a parsed body with a string project key answers 201 `{"id":"99999","key":"<key>-999",...}` |
| MockServerProperties.CreateIssueEchoesProject | tests/mock/server/mock_server.py:314-323 | a body with `fields.project.key` = `key` creates `<key>-999` |
| MockServerProperties.EmptyBodyCreatesMock | tests/mock/server/mock_server.py:302-307 | a zero or missing Content-Length is read as `{}` and creates `MOCK-999`, whatever the body |
| MockServerProperties.InvalidJsonIs400 | tests/mock/server/mock_server.py:308-312 | a non-empty body that is not JSON gets 400 "Invalid JSON body" |
| MockServerProperties.CreatedOnlyByPost | tests/mock/server/mock_server.py:289-326 | 201 comes only from an authenticated POST to an issue path, and POST never reads a fixture |
| PyText.Find | tests/mock/server/mock_server.py:110 | the result is the first index where the pattern occurs, or none when it does not occur |
| PyText.Before | tests/mock/server/mock_server.py:151 | `split(sep)[0]`: the whole text exactly when `sep` does not occur, and otherwise the prefix ending where the first occurrence of `sep` begins; it holds no `sep` |
| PyText.SecondField | tests/mock/server/mock_server.py:111 | `split(sep)[1]` exists exactly when `sep` occurs; it starts right after the first occurrence and runs to the next occurrence of `sep` after it, or to the end when there is none |
| PyText.SecondFieldAfterFirst | tests/mock/server/mock_server.py:111 | when the first `sep` follows `a`, the second field of `a + sep + e` is `e` up to its first `sep` |
| PyText.SecondFieldAfterPrefix | tests/mock/server/mock_server.py:111 | after a leading `sep` the second field is the text up to the next `sep` |
| PyText.StartsWithIsPrefix | tests/mock/server/mock_server.py:75 | `startswith(p)` holds exactly when `p` is a prefix |
| PyText.DecimalText | tests/mock/server/mock_server.py:319 | `str(n)` is a digit string without leading zeros whose value is `n` |
| PyText.IntText | tests/mock/server/mock_server.py:319 | `str(i)` is a minus sign exactly for a negative `i`, then the digits of its magnitude without a leading zero |
| PyText.Strip | tests/mock/server/mock_server.py:175 | `strip()` gives the empty text exactly for blank text, and otherwise text that starts and ends with a non-space |
| PyText.StripPadded | tests/mock/server/mock_server.py:175 | `strip()` of blanks, then text that starts and ends with a non-space, then blanks, is that text |
| PyText.DropUnderscoresConcat | tests/mock/server/mock_server.py:175 | the underscores are removed from the digit part piece by piece, with the pieces kept in order |
| PyText.DropUnderscoresChar | tests/mock/server/mock_server.py:175 | a lone underscore is dropped and any other character is kept |
| PyText.ParseIntNumeral | tests/mock/server/mock_server.py:175 | `int()` of blanks, an optional `+` or `-`, digit groups with single underscores between digits, and blanks is the signed value of the digits, leading zeros allowed, when there are at most 4300 of them, and raises otherwise |
| PyText.ParseIntOnlyNumerals | tests/mock/server/mock_server.py:302 | `int()` accepts only text that strips to an optional sign followed by such digit groups, within the digit limit |
| PyText.ParseIntText | tests/mock/server/mock_server.py:175 | `int(str(i)) == i` for every integer of at most 4300 digits |
| PyText.ParseIntTextTooLong | tests/mock/server/mock_server.py:175 | `int(str(i))` raises for every integer of more than 4300 digits |
| PyText.ParseIntDigitLimit | tests/mock/server/mock_server.py:175 | a numeral of ASCII digits is accepted by `int()` exactly when it has at most 4300 digits |
| PyText.Lower | tools/lint/scripts/trailing_whitespace.py:65 | `lower()` changes each upper-case ASCII letter to its lower-case letter and keeps every other character, so no upper-case ASCII letter is left |
| PyText.Hex4 | tools/lint/check_no_emoji_text.py:92 | `:04X` gives at least four upper-case hex digits, with value `n` and no leading zero beyond the four |
| LineSplit.SplitLinesKeepEnds | tools/lint/scripts/trailing_whitespace.py:78 | joining the lines of `splitlines(keepends=True)` gives back the text |
| LineSplit.SplitLinesWellSplit | tools/lint/scripts/trailing_whitespace.py:78 | each line is a body without boundaries plus one terminator (or none at the end), and a `"\r"` line is never followed by a `"\n"` line |
| LineSplit.SplitLinesUnique | tools/lint/scripts/trailing_whitespace.py:78 | every well-formed list of lines is the split of the text it joins to, so the split is unique |
| LineSplit.SplitLines | tools/lint/check_no_emoji_text.py:83 | no line of `splitlines()` holds a line boundary |
| LineSplit.SplitLinesBodies | tools/lint/check_no_emoji_text.py:83 | `splitlines()` has as many lines as `splitlines(keepends=True)`, and each is the kept-ends line without its terminator |
| LineSplit.LineCharsFromText | tools/lint/check_no_emoji_text.py:83 | every character of a line comes from the text |
| LineSplit.TextCharsInLines | tools/lint/check_no_emoji_text.py:83 | every character of the text that is not a line boundary appears in some line |
| LineSplit.SplitLinesKeepChars | tools/lint/check_no_emoji_text.py:83 | for a property no boundary has, the text has such a character exactly when some line does |
| TrailingWhitespace.TailAccepted | tools/lint/scripts/trailing_whitespace.py:23 | the computed tail is one the lookahead `(?=(\r?\n)?$)` accepts |
| TrailingWhitespace.TailLongest | tools/lint/scripts/trailing_whitespace.py:23 | no longer suffix is accepted |
| TrailingWhitespace.StripRemovesBlanks | tools/lint/scripts/trailing_whitespace.py:23 | the substitution keeps the accepted tail, removes only blanks right before it, and keeps the rest |
| TrailingWhitespace.MatchEnd | tools/lint/scripts/trailing_whitespace.py:23 | every match of the pattern ends where the accepted tail begins |
| TrailingWhitespace.NoMatchNoChange | tools/lint/scripts/trailing_whitespace.py:83 | where the pattern matches nowhere, `sub` returns the string unchanged |
| TrailingWhitespace.LeftmostMatchRemoved | tools/lint/scripts/trailing_whitespace.py:83 | `sub` removes exactly the leftmost match, and no match remains after it |
| TrailingWhitespace.StripTwiceDiffers | tools/lint/scripts/trailing_whitespace.py:23 | on a string that is not one line, a second substitution can remove more: `" \r \n"` gives `" \r\n"`, which gives `"\r\n"` |
| TrailingWhitespace.LineTail | tools/lint/scripts/trailing_whitespace.py:23 | on a line the lookahead accepts the terminator when it is none, `"\n"` or `"\r\n"`, and nothing otherwise |
| TrailingWhitespace.StripLineSpec | tools/lint/scripts/trailing_whitespace.py:83 | on a line, stripping removes the spaces and tabs ending the body before none, `"\n"` or `"\r\n"`, and changes nothing before any other terminator |
| TrailingWhitespace.StripStrippableLine | tools/lint/scripts/trailing_whitespace.py:83 | before none, `"\n"` or `"\r\n"` the blanks ending the body go |
| TrailingWhitespace.StripOtherLine | tools/lint/scripts/trailing_whitespace.py:83 | before a lone `"\r"` or any other boundary the line is kept |
| TrailingWhitespace.StripLineShape | tools/lint/scripts/trailing_whitespace.py:83 | a stripped line keeps its terminator, its body shrinks to a prefix, and no blank is left before `"\n"`, `"\r\n"` or the end |
| TrailingWhitespace.ShapeIsStripped | tools/lint/scripts/trailing_whitespace.py:83 | a line without a blank before such a terminator is left unchanged |
| TrailingWhitespace.StripLineIdempotent | tools/lint/scripts/trailing_whitespace.py:83 | stripping a line twice is stripping it once |
| TrailingWhitespace.StripLength | tools/lint/scripts/trailing_whitespace.py:83 | stripping never lengthens a line, and keeps its length only when it leaves it unchanged |
| TrailingWhitespace.CountChangedIsCardinality | tools/lint/scripts/trailing_whitespace.py:78-86 | `changed` is the number of lines whose stripped form differs |
| TrailingWhitespace.CountZeroIff | tools/lint/scripts/trailing_whitespace.py:84-89 | `changed` is 0 exactly when no line changes |
| TrailingWhitespace.NoChangeIff | tools/lint/scripts/trailing_whitespace.py:84-89 | `changed` is 0 exactly when `new_lines` equals `lines` |
| TrailingWhitespace.StripAllLength | tools/lint/scripts/trailing_whitespace.py:86-93 | the joined stripped lines are never longer than the text, and as long only when nothing changed |
| TrailingWhitespace.FixTextIff | tools/lint/scripts/trailing_whitespace.py:88-93 | the text written back equals the original exactly when no line changed |
| TrailingWhitespace.FixTwiceDiffers | tools/lint/scripts/trailing_whitespace.py:78-93 | fixing `"a \r  \n"` gives `"a \r\n"`, in which one line still changes |
| TrailingWhitespace.StripLines | tools/lint/scripts/trailing_whitespace.py:78-86 | the loop's `changed` and `new_lines` are the count of changed lines and the stripped lines |
| TrailingWhitespace.CheckOrFixFile | tools/lint/scripts/trailing_whitespace.py:69-97 | binary and unreadable files give None; no changed line gives None; a failed write gives None; otherwise a report with the count, and in fix mode the file holds the joined stripped lines |
| TrailingWhitespace.CheckOrFixReport | tools/lint/scripts/trailing_whitespace.py:88-97 | a report names the file checked, which is a text file, with at least one changed line |
| TrailingWhitespace.CheckOrFixWrites | tools/lint/scripts/trailing_whitespace.py:91-95 | a file changes only in fix mode, only when reported, and then holds the fixed text |
| TrailingWhitespace.CheckLeavesFile | tools/lint/scripts/trailing_whitespace.py:88-97 | check mode never changes a file, and reports exactly the text files with a changed line |
| TrailingWhitespace.Name | tools/lint/scripts/trailing_whitespace.py:65 | `Path.name` is the part after the last `/` |
| TrailingWhitespace.LastDotShape | tools/lint/scripts/trailing_whitespace.py:65 | the last-dot search finds a dot with none after it, or -1 when there is no dot |
| TrailingWhitespace.SuffixAt | tools/lint/scripts/trailing_whitespace.py:65 | `Path.suffix` runs from the last dot when that dot is neither first nor last, and is empty otherwise |
| TrailingWhitespace.NoDotNoSuffix | tools/lint/scripts/trailing_whitespace.py:65 | a name with no dot after its first character has no suffix |
| TrailingWhitespace.SuffixOf | tools/lint/scripts/trailing_whitespace.py:65 | the suffix of `<stem>.<x>` is `.<x>` |
| TrailingWhitespace.TrimDotsShape | tools/lint/scripts/trailing_whitespace.py:65 | `lstrip(".")` drops exactly the leading dots |
| TrailingWhitespace.NormalizeDotExt | tools/lint/scripts/trailing_whitespace.py:65 | normalising `.<x>` gives `x` in lower case |
| TrailingWhitespace.ExtensionDecides | tools/lint/scripts/trailing_whitespace.py:64-66 | `<dir><stem>.<x>` is excluded exactly when `x` in lower case is in the set |
| TrailingWhitespace.NameAfterDir | tools/lint/scripts/trailing_whitespace.py:65 | the name of `<dir>/<name>` is `name` |
| TrailingWhitespace.NoSuffixExcludedIff | tools/lint/scripts/trailing_whitespace.py:64-66 | a file without a suffix is excluded exactly when the set holds the empty extension |
| TrailingWhitespace.MdExcluded | tools/lint/scripts/trailing_whitespace.py:140 | the exclusion set always holds `md`, because `--exclude-ext` appends to the default |
| TrailingWhitespace.MarkdownAlwaysExcluded | tools/lint/scripts/trailing_whitespace.py:105-110 | `.md` files are excluded in any letter case, whatever `--exclude-ext` adds |
| TrailingWhitespace.ExcludeExtApplies | tools/lint/scripts/trailing_whitespace.py:140 | an `--exclude-ext` value excludes files whose extension equals it up to case and leading dots |
| TrailingWhitespace.NormalizePaths | tools/lint/scripts/trailing_whitespace.py:120-133 | the loop builds the normalised list of the non-empty inputs |
| TrailingWhitespace.NormalizedPathsShape | tools/lint/scripts/trailing_whitespace.py:120-133 | empty strings are dropped; each other input gives one path, in order; relative paths are kept as they are |
| TrailingWhitespace.NormalizedPathsAppend | tools/lint/scripts/trailing_whitespace.py:143-146 | normalising the arguments and then the stdin lines is normalising them joined, in order |
| TrailingWhitespace.Visit | tools/lint/scripts/trailing_whitespace.py:156-161 | one pass of the loop skips a missing or excluded candidate, and otherwise appends its report and keeps its new state |
| TrailingWhitespace.StepChecked | tools/lint/scripts/trailing_whitespace.py:159-161 | a candidate that exists and is not excluded adds its report, if any, and its new state |
| TrailingWhitespace.StepSkipped | tools/lint/scripts/trailing_whitespace.py:156-158 | a missing or excluded candidate changes nothing |
| TrailingWhitespace.ProcessAll | tools/lint/scripts/trailing_whitespace.py:155-161 | the loop over the candidates gives the reports and files of processing them in order |
| TrailingWhitespace.Run | tools/lint/scripts/trailing_whitespace.py:136-170 | exit 2 with nothing done when there are no candidates and git fails; otherwise the candidates are processed and the exit code follows the mode and the reports |
| TrailingWhitespace.StepVisits | tools/lint/scripts/trailing_whitespace.py:156-161 | an existing, non-excluded candidate is checked or fixed |
| TrailingWhitespace.StepCheckKeepsFiles | tools/lint/scripts/trailing_whitespace.py:156-161 | one candidate in check mode leaves the files as they are |
| TrailingWhitespace.ProcessCheckKeepsFiles | tools/lint/scripts/trailing_whitespace.py:155-161 | check mode writes nothing |
| TrailingWhitespace.StepCheckReports | tools/lint/scripts/trailing_whitespace.py:156-161 | one candidate in check mode adds a report exactly when it is an existing, non-excluded text file with a changed line |
| TrailingWhitespace.ProcessCheckReports | tools/lint/scripts/trailing_whitespace.py:155-161 | check mode reports something exactly when some candidate is such a file |
| TrailingWhitespace.ProcessKeys | tools/lint/scripts/trailing_whitespace.py:155-161 | processing creates and deletes no file |
| TrailingWhitespace.StepReports | tools/lint/scripts/trailing_whitespace.py:156-161 | one candidate adds at most its own report, with a changed line, and only when it exists and is not excluded |
| TrailingWhitespace.ProcessReportsNamed | tools/lint/scripts/trailing_whitespace.py:155-161 | every report names a candidate that exists, is not excluded and has a changed line |
| TrailingWhitespace.StepLeaves | tools/lint/scripts/trailing_whitespace.py:156-161 | one candidate changes no other file and no excluded one |
| TrailingWhitespace.ProcessLeavesOthers | tools/lint/scripts/trailing_whitespace.py:155-161 | a file that is not a candidate, or is excluded, is left as it was |
| TrailingWhitespace.CheckExitCode | tools/lint/scripts/trailing_whitespace.py:167-170 | fix mode exits 0; check mode exits 1 exactly when some candidate is an existing, non-excluded text file with a changed line, and 0 otherwise |
| EmojiCheck.ForbiddenIff | tools/lint/check_no_emoji_text.py:26-64 | forbidden means a variation selector, the zero width joiner, a code point in one of the blocks (merged into four ranges), or U+2B50; the other listed symbols already lie in the blocks |
| EmojiCheck.BelowJoinerAllowed | tools/lint/check_no_emoji_text.py:26-64 | every code point below U+200D is allowed, all of ASCII among them |
| EmojiCheck.ForbiddenNotBoundary | tools/lint/check_no_emoji_text.py:83 | no forbidden character is a line boundary, so splitting loses none |
| EmojiCheck.LineFindings | tools/lint/check_no_emoji_text.py:84-95 | each finding of a line has that line number and a 1-based column that indexes a forbidden character, in increasing column order |
| EmojiCheck.FindingsSound | tools/lint/check_no_emoji_text.py:83-95 | every finding's 1-based line and column index a forbidden character, which it carries |
| EmojiCheck.FindingsComplete | tools/lint/check_no_emoji_text.py:83-95 | every forbidden character of every line has its finding |
| EmojiCheck.LineComplete | tools/lint/check_no_emoji_text.py:84-95 | every forbidden character of a line has its finding |
| EmojiCheck.FindingsInOrder | tools/lint/check_no_emoji_text.py:83-95 | findings come in reading order: by line, then by column |
| EmojiCheck.LinesKeepForbidden | tools/lint/check_no_emoji_text.py:83 | the text has a forbidden character exactly when one of its lines has |
| EmojiCheck.FindingsIffForbiddenLines | tools/lint/check_no_emoji_text.py:83-95 | there is a finding exactly when some line holds a forbidden character |
| EmojiCheck.FindingsIffForbidden | tools/lint/check_no_emoji_text.py:83-95 | there is a finding exactly when the text holds a forbidden character |
| EmojiCheck.Capped | tools/lint/check_no_emoji_text.py:96-97 | the capped findings are a prefix of all of them |
| EmojiCheck.ScanCapped | tools/lint/check_no_emoji_text.py:96-97 | the result is a prefix of all findings; it holds at most `max_findings` (at least one) of them, and all of them when there are no more than that |
| EmojiCheck.CodePointFormat | tools/lint/check_no_emoji_text.py:92 | a character finding's code point text is `U+` and at least four upper-case hex digits with the code point's value; an undecodable file gives `N/A` |
| EmojiCheck.ScanNonEmptyIff | tools/lint/check_no_emoji_text.py:67-98 | `scan_file` returns findings exactly when the file is not UTF-8 or holds a forbidden character |
| EmojiCheck.ScanFile | tools/lint/check_no_emoji_text.py:67-98 | the nested loops with the early return give the single `non-utf8` finding at 1:1 for undecodable input, and otherwise the first findings in reading order up to the cap |
| EmojiCheck.Args | tools/lint/check_no_emoji_text.py:102 | the paths hold exactly the non-empty arguments after the program name |
| EmojiCheck.ArgsInOrder | tools/lint/check_no_emoji_text.py:102 | the paths are the arguments after the program name at the positions of the non-empty ones, in increasing order |
| EmojiCheck.ArgsMultiset | tools/lint/check_no_emoji_text.py:102 | each non-empty argument is a path as many times as it is given, and the empty ones are dropped |
| EmojiCheck.Run | tools/lint/check_no_emoji_text.py:101-128 | `main` returns 0 when there are no paths or no findings and 1 otherwise; it shows the first 50 findings and counts the rest as "... and N more" |
| EmojiCheck.ScansIff | tools/lint/check_no_emoji_text.py:106-112 | the collected findings are non-empty exactly when some existing path is undecodable or holds a forbidden character |
| EmojiCheck.ExitStatusIff | tools/lint/check_no_emoji_text.py:101-128 | `main` exits 1 exactly when some non-empty argument names an existing file that is not UTF-8 or holds a forbidden character |

## Left out

- HTTP plumbing of the mock server is not modelled:
  - the server loop, sockets, headers written, logging, argparse, the environment and `FIXTURES_DIR`;
  - `urlparse`/`parse_qs`: a request arrives already split into a path and a query map;
  - the order of keys in a JSON object (objects are maps).
- `json.load`/`json.loads` are not modelled: the fixture map holds each file's parse result, and the request body holds its decoding and parse result.
- `rfile.read(content_length)` is not modelled: the body is given whole, so a short read and a negative length are not represented.
- MockServer.DisplayText: `str()` of a float, list or dict project key gives a placeholder, so the `key` created for such a project is not stated.
- PyText.ParseInt: accepts only ASCII digits, while Python's `int()` also accepts other Unicode decimal digits; such a text is treated as not an integer.
- PyText.MaxStrDigits: the digit limit is CPython's default of 4300; changing it through `PYTHONINTMAXSTRDIGITS` or `sys.set_int_max_str_digits` is not modelled.
- MockServer.DisplayText: `str()` of an integer project key of more than 4300 digits would raise. `json.loads` already rejects such a number with `ValueError`, but a request body is given as its parse result, so the model does not rule such a key out.
- MockServer.IsPathDigit: counts only the digits below U+0100. A request path cannot hold a higher code point, because `http.server` decodes the request line as ISO-8859-1, but a `Request` value can; a path with, say, U+0663 is not a content id in the model, while `str.isdigit` would accept it.
- The 501 page for other verbs is `BaseHTTPRequestHandler`'s HTML page. Its text and headers are not modelled, only that it is sent.
- PyText.Lower: lower-cases ASCII letters only, while `str.lower` covers all of Unicode; extensions are compared under that restriction.
- Path handling is not modelled beyond `Path.name` and `Path.suffix` on `/`-separated strings:
  - `Path()` normalisation (`./a`, `a//b`, a trailing `/`) is not modelled, so candidates and files are keyed by the string given;
  - `Path.is_file` is membership in the file map;
  - `relative_to(Path.cwd())` is the `relativize` parameter.
- Outside effects of the trailing-whitespace script are modelled as inputs:
  - the `git ls-files` calls are the `git` parameter (`None` when git fails);
  - standard input is the `stdin` parameter.
- File contents and reading are abstracted:
  - `is_binary` is the `Binary` file state, without the 8192-byte sniffing;
  - a read error is `Unreadable`;
  - surrogate-escaped bytes are characters of the text.
- A failed write is modelled as leaving the file unchanged. A partial write is not.
- Printing is not modelled: the `file: N line(s)` lines and stderr messages of both scripts. The reports and findings are returned instead.
- EmojiCheck.Repr: escapes only the zero width joiner. Python's `repr` also escapes unassigned code points inside the blocks, so `char_repr` is stated only for the characters `repr` prints as they are.
- Undecodable files are modelled as `None`, which gives the `non-utf8` finding. An existing path that cannot be read for another reason (a directory, say), where the script raises, is not modelled.
- The finding's path is the argument string, not `str(Path(p))`.
