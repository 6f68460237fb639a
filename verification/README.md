# gistapi: the fetch-then-scan pipeline of the gist search service

The service answers `POST /api/v1/search` with `{username, pattern}`. It
pages through the user's public gists on GitHub, streams the raw content of
each gist's files, and returns the `html_url` of every gist that has a line
matching the pattern at its start. This project models that pipeline and
proves what it does:

- **`schema.dfy` (module `Schema`)**: the value shapes. These are the gist
  summaries of a listing page (`Gist`, `FileEntry`, `GistFile`), a listing
  response (`Response`, whose `Payload` is falsy, unparsable or a list of
  gists), the three fetcher exceptions (`FetchError`), the inbound request,
  and the reply.
- **`http.dfy` (module `Http`)**: the remote side. What GitHub answers is
  fixed data, `Api(listing, raw)`. `listing(username, n)` is the final
  response to the listing request for page `n`. `raw(url)` is the list of
  lines of a raw file. The `Session` class is the `requests` session every
  call goes through. It records each request it makes, and each streamed
  line it consumes, in a ghost log. Ordering, the page ceiling and
  short-circuiting are stated over that log.
- **`fetcher.dfy` (module `Fetcher`)**: `gists_for_user`, the generator.
  `Classify` handles one response: the status checks come first, then the
  body. `GistsForUser` is the generator object: a page counter, a finished
  flag and a `Next` method for one resumption. `ListFrom` and
  `RequestedPages` state what the generator yields and requests when it is
  driven to its end.
- **`matcher.dfy` (module `Matcher`)**: `_gist_matches`. `MatchFile` and
  `MatchGist` are its two nested loops, proved against the predicates
  `FileMatches` and `GistMatches` and against the request traces
  `FileTrace` and `GistTrace`.
- **`search.dfy` (module `Search`)**: the `search()` handler. It validates
  the request, drives the generator, scans each gist and collects the URLs
  of the matches. It maps the exceptions to 404 and 500 replies. `RunFrom`
  is the reference reading of that loop, and the `Search` method is proved
  to produce `SearchReply` and the request log `SearchTrace`.

Details of the code as written that the model follows:

- The loop guard `page <= 5` is tested before the counter is incremented
  (gistapi/gistapi.py:68-73). Up to six listing pages are therefore
  requested, not five.
- Any status other than exactly 200 raises `UnexpectedStatusCode`, not only
  a status outside 2xx (gistapi/gistapi.py:79-81). A 201 or 204 is an error
  here.
- The falsiness test on the decoded body comes before the schema parse
  (gistapi/gistapi.py:82-92). So `[]`, `{}`, `null`, `0`, `""` and `false`
  all end the listing normally. Only a truthy body that does not parse
  raises `MalformedResponse`.
- A gist's files are scanned in the insertion order of its `files`
  dictionary. The model keeps them as a sequence in that order.

## Model

| member | source | states |
|---|---|---|
| Http.Session.GetGistsPage | gistapi/gistapi.py:73 | the listing request for a page returns the remote's final answer for that user and page, and is logged as a request of that page |
| Http.Session.GetRaw | gistapi/gistapi.py:190-191 | opening the streamed body of a raw file is logged as one request of that URL |
| Http.Session.NextLine | gistapi/gistapi.py:192-193 | the stream yields the file's lines in order, one at a time, and is exhausted after the last; each consumed line is logged |
| Fetcher.Classify | gistapi/gistapi.py:74-92 | 404 raises UserNotFound; 403 and every other status but 200 raise UnexpectedStatusCode, whatever the body; on 200 a falsy body ends the listing, a truthy body that does not parse raises MalformedResponse, and only a non-empty list of gists is yielded, as that list; each of these is an if-and-only-if |
| Fetcher.ListFrom | gistapi/gistapi.py:68-92 | from counter `page`, the generator yields at most `6 - page` pages, and when it raises, it does so before the counter passes 5 |
| Fetcher.RequestedPagesInOrder | gistapi/gistapi.py:68-73 | the generator requests pages page + 1, page + 2, ... strictly in order: one per yielded page, plus the page that ended it unless the counter ran out; never a page past 6 |
| Fetcher.ListedPagesAreYields | gistapi/gistapi.py:86-89 | the i-th yielded page is the non-empty parsed body of listing page page + 1 + i |
| Fetcher.ListingThroughYields | gistapi/gistapi.py:71-92 | when pages page + 1 .. stop - 1 yield and page `stop` does not (or all pages up to 6 yield), the generator yields exactly stop - page - 1 pages and ends with page `stop`'s exception, or without one if that page was falsy or the ceiling was reached |
| Fetcher.ListingUpToStop | gistapi/gistapi.py:68-92 | driven from the start, the generator yields exactly the bodies of pages 1 .. stop - 1 and ends as page `stop` says |
| Fetcher.GistsForUser.constructor | gistapi/gistapi.py:65-68 | a fresh generator for a user has its counter at 0 and has not finished |
| Fetcher.GistsForUser.Next | gistapi/gistapi.py:71-92 | one resumption: a finished generator, or one whose counter is past 5, stops without a request; otherwise the counter is incremented, exactly that page is requested, the step is the classification of its response, and anything but a yielded page finishes the generator; the counter never exceeds 6 |
| Matcher.FirstMatch | gistapi/gistapi.py:177-179 | the index of the first line that matches at its start: no earlier line matches, the line there does, and it is inside the file exactly when some line matches |
| Matcher.FirstMatchingFile | gistapi/gistapi.py:176-179 | the index of the first file with a matching line: no earlier file has one, and the file there does |
| Matcher.LinesTrace | gistapi/gistapi.py:177-178 | scanning one file only consumes lines of that file |
| Matcher.LinesReadUpToFirstMatch | gistapi/gistapi.py:177-179 | the scan of a file consumes lines i, i + 1, ... up to and including the first matching line and none after it (all lines when none matches) |
| Matcher.FileTraceFetchesOnce | gistapi/gistapi.py:190-191 | scanning one file requests its raw content exactly once |
| Matcher.FilesFetchedUpToFirstMatch | gistapi/gistapi.py:176-179 | the scan of a gist requests the files' contents in order, up to and including the first file with a matching line, and no later file |
| Matcher.EmptyGistNeverMatches | gistapi/gistapi.py:176-180 | a gist with no files never matches and its scan makes no request |
| Matcher.GistTraceRequestsNoPages | gistapi/gistapi.py:172-180 | the matcher never requests a listing page |
| Matcher.MatchFile | gistapi/gistapi.py:177-179 | the inner loop answers true exactly when some line of the file matches at its start, and makes exactly the requests of the short-circuiting file scan |
| Matcher.MatchGist | gistapi/gistapi.py:172-180 | `_gist_matches` answers true exactly when some line of some file of the gist matches at its start, and makes exactly the requests of the short-circuiting gist scan |
| Search.SearchReply | gistapi/gistapi.py:119-148 | a request that fails validation gets 400 with the validation detail; the code is 200 exactly when the body is a success body, and a success body echoes the user name and the pattern text; the body's `status` field is "success" exactly when the code is 200; the code is always 200, 400, 404 or 500 |
| Search.PageMatchesAppend | gistapi/gistapi.py:129-132 | the matches over two runs of gists are the matches over the first followed by those over the second |
| Search.PageMatchesMembers | gistapi/gistapi.py:130-132 | a URL is among the matches exactly when some gist with that `html_url` has a matching line |
| Search.PageTraceRequestsNoPages | gistapi/gistapi.py:130-131 | scanning a page's gists never requests a listing page |
| Search.RunRequestsListedPages | gistapi/gistapi.py:128-132 | the listing requests the search makes are exactly the pages the generator requests when driven to its end |
| Search.RunAgreesWithListing | gistapi/gistapi.py:128-140 | the loop fails with the generator's exception if it raised one, and otherwise collects the URLs of the matching gists of all yielded pages, in page order and then within-page order |
| Search.SearchReplyFollowsListing | gistapi/gistapi.py:127-148 | UserNotFound becomes 404 "User <name> not found"; MalformedResponse and UnexpectedStatusCode become 500 "Internal error", with no matches; otherwise 200 echoing the user name and pattern with the ordered matches of all yielded pages |
| Search.SearchRequestsPagesUpToStop | gistapi/gistapi.py:68-73 | when pages 1 .. stop - 1 yield and page `stop` does not, the search requests exactly listing pages 1, 2, ..., stop in that order, and never more than 6 |
| Search.SearchReplyAtStop | gistapi/gistapi.py:127-148 | in the same situation, a 404 on page `stop` gives the 404 reply, any other non-200 status or a malformed body gives the 500 reply even when earlier pages matched, and a falsy body or the page ceiling gives 200 with the matches among the gists of pages 1 .. stop - 1 |
| Search.SixPagesWhenEveryPageYields | gistapi/gistapi.py:68-73 | when every page yields, exactly pages 1 to 6 are requested |
| Search.ScenarioUnknownUser | gistapi/gistapi.py:133-135 | a user whose first page answers 404 gets the 404 reply naming the user, after exactly one listing request |
| Search.ScenarioOneMatchingGist | gistapi/gistapi.py:127-148 | one gist whose first line matches, then an empty page, gives 200 with that gist's URL as the only match |
| Search.AppendPageMatches | gistapi/gistapi.py:130-132 | the inner loop appends to the matches exactly the URLs of the page's matching gists, in order, and makes exactly the requests of scanning them |
| Search.Search | gistapi/gistapi.py:119-148 | the handler's reply is the reference reply and its requests are exactly the reference request log |

## Left out

- The Flask app, the route decorators, `ping` and the server start are web plumbing (gistapi/gistapi.py:25-31, 196-197).
- The retry and backoff configuration of `make_session` is left out (gistapi/gistapi.py:34-48). A listing request is modelled by the response it finally yields.
- Fetcher.Classify: a listing status of 500, 502 or 504 stands for an answer the real session never hands back. `make_session` retries those statuses and, once the retries are spent, `session.get` raises `RetryError` (`raise_on_status` keeps its default). A transport failure raises `ConnectionError`. `search` catches neither, so the framework answers with its own unhandled-error 500. The model leaves out those uncaught exceptions and treats such a status like any other non-200 status.
- Search.SearchReplyAtStop: its 500 "Internal error" reply for a non-200 page is the source's reply only for statuses the session returns (403 and other statuses outside 500, 502 and 504). For 500, 502 and 504 the source raises the uncaught exception described above.
- `raw(url)` is whatever body `GET url` returns, whatever its status. `_fetch_file_lines` never checks the status (gistapi/gistapi.py:191), so an error page is scanned as if it were the file's lines. The model does not tell the two apart.
- Real HTTP I/O and the bytes-to-lines decoding of `iter_lines` are left out. The 10 MB truncation of large gists is left out too. A raw file is given as its sequence of lines.
- A network error while fetching file content is left out. It is an uncaught exception in the source.
- The regular-expression engine is abstract. `regex.match` is a given predicate on lines.
- An invalid pattern is left out. `re.compile` at gistapi/gistapi.py:125 sits outside every `try`, so the source does not handle it.
- Pydantic validation of the inbound request is abstracted as `Inbound`: the parse either succeeds or fails with a detail string, which the reply returns with 400. How that detail is produced is left out.
- The JSON decoding of a listing response is abstracted as `Payload`. A body that is not JSON at all raises an uncaught exception in `response.json()` and is left out.
- The unused `ThreadPool` import is left out, and so is any concurrency. Each request is handled sequentially.
- The request log is ghost state. It records what is requested, not timing or the connections used.
