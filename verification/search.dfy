/**
 * The `/api/v1/search` handler: validates the request, drives the listing
 * generator, keeps the `html_url` of every gist the matcher accepts and maps
 * the fetcher's exceptions to error replies.
 */
module Search {
  import opened Schema
  import opened Http
  import opened Matcher
  import opened Fetcher

  /** How the fetch-then-scan loop ends: the collected URLs, or an exception. */
  datatype Outcome = Matched(urls: seq<string>) | Failed(error: FetchError)

  /** The loop's outcome and every request it makes, in order. */
  datatype Run = Run(outcome: Outcome, trace: seq<Event>)

  /** The URLs of the matching gists of a sequence of gists, in their order. */
  ghost function PageMatches(gists: seq<Gist>, raw: string -> seq<string>, regex: Regex): (urls: seq<string>)
    ensures |urls| <= |gists|
  {
    if gists == [] then []
    else (if GistMatches(gists[0], raw, regex) then [gists[0].htmlUrl] else []) + PageMatches(gists[1..], raw, regex)
  }

  /** The requests the matcher makes over a sequence of gists, one gist after the other. */
  ghost function PageTrace(gists: seq<Gist>, raw: string -> seq<string>, regex: Regex): seq<Event>
  {
    if gists == [] then []
    else GistTrace(gists[0].files, raw, regex) + PageTrace(gists[1..], raw, regex)
  }

  /** URLs collected on earlier pages, followed by the outcome of the rest of the loop. */
  function Prepend(urls: seq<string>, outcome: Outcome): Outcome {
    match outcome
    case Matched(later) => Matched(urls + later)
    case Failed(e) => Failed(e)
  }

  /**
   * The fetch-then-scan loop from the moment the generator's counter stands
   * at `page`: request the next page, stop on an empty body, fail on an
   * exception, or scan the page's gists and go on.
   */
  ghost function RunFrom(api: Api, username: string, regex: Regex, page: nat): (run: Run)
    requires page <= 6
    decreases 6 - page
  {
    if page > 5 then Run(Matched([]), [])
    else
      var get := [PageGet(username, page + 1)];
      match Classify(api.listing(username, page + 1))
      case Exhausted => Run(Matched([]), get)
      case Raise(e) => Run(Failed(e), get)
      case Yield(gists) =>
        var rest := RunFrom(api, username, regex, page + 1);
        Run(Prepend(PageMatches(gists, api.raw, regex), rest.outcome),
            get + PageTrace(gists, api.raw, regex) + rest.trace)
  }

  /** The pattern as `re.compile` gives it: its source text and its matcher. */
  function Compile(pattern: string, compiled: string -> bool): (regex: Regex)
    ensures regex.pattern == pattern
  {
    Regex(pattern, compiled)
  }

  /** The whole search for a well-formed request. */
  ghost function SearchRun(api: Api, request: SearchRequest, compiled: string -> bool): Run {
    RunFrom(api, request.username, Compile(request.pattern, compiled), 0)
  }

  /** The requests a search makes: none at all for a request that fails validation. */
  ghost function SearchTrace(api: Api, inbound: Inbound, compiled: string -> bool): seq<Event> {
    match inbound
    case IllFormed(_) => []
    case WellFormed(request) => SearchRun(api, request, compiled).trace
  }

  /**
   * The reply to a search. A 200 reply, and only it, carries the matches,
   * and it echoes the user name and the pattern's source text unchanged.
   */
  ghost function SearchReply(api: Api, inbound: Inbound, compiled: string -> bool): (r: Reply)
    ensures inbound.IllFormed? ==> r == Reply(ErrorBody(inbound.detail), StatusBadRequest)
    ensures r.code == StatusOk <==> r.body.SuccessBody?
    ensures r.body.Status() == "success" <==> r.code == StatusOk
    ensures r.body.SuccessBody? ==>
              && r.body.username == inbound.request.username
              && r.body.pattern == inbound.request.pattern
    ensures r.code in {StatusOk, StatusBadRequest, StatusNotFound, StatusInternalError}
  {
    match inbound
    case IllFormed(detail) => Reply(ErrorBody(detail), StatusBadRequest)
    case WellFormed(request) =>
      match SearchRun(api, request, compiled).outcome
      case Failed(UserNotFound) => Reply(ErrorBody("User " + request.username + " not found"), StatusNotFound)
      case Failed(_) => Reply(ErrorBody("Internal error"), StatusInternalError)
      case Matched(urls) => Reply(SuccessBody(request.username, Compile(request.pattern, compiled).pattern, urls), StatusOk)
  }

  /** The gists of a sequence of pages, page after page. */
  function Flatten(pages: seq<seq<Gist>>): seq<Gist> {
    if pages == [] then [] else pages[0] + Flatten(pages[1..])
  }

  lemma {:induction false} PageMatchesAppend(a: seq<Gist>, b: seq<Gist>, raw: string -> seq<string>, regex: Regex)
    ensures PageMatches(a + b, raw, regex) == PageMatches(a, raw, regex) + PageMatches(b, raw, regex)
  {
    if a == [] {
      assert a + b == b;
    } else {
      assert (a + b)[0] == a[0];
      assert (a + b)[1..] == a[1..] + b;
      PageMatchesAppend(a[1..], b, raw, regex);
    }
  }

  /**
   * A URL is among the matches exactly when some gist with that `html_url`
   * has a line that matches; the gists none of whose lines match contribute
   * nothing.
   */
  lemma {:induction false} PageMatchesMembers(gists: seq<Gist>, raw: string -> seq<string>, regex: Regex, url: string)
    ensures url in PageMatches(gists, raw, regex) <==>
              exists g :: g in gists && GistMatches(g, raw, regex) && g.htmlUrl == url
  {
    if gists != [] {
      PageMatchesMembers(gists[1..], raw, regex, url);
      assert forall g :: g in gists <==> g == gists[0] || g in gists[1..];
    }
  }

  /** The scan of the gists never requests a listing page. */
  lemma {:induction false} PageTraceRequestsNoPages(gists: seq<Gist>, raw: string -> seq<string>, regex: Regex)
    ensures PageNumbers(PageTrace(gists, raw, regex)) == []
  {
    if gists != [] {
      GistTraceRequestsNoPages(gists[0].files, raw, regex);
      PageTraceRequestsNoPages(gists[1..], raw, regex);
      PageNumbersAppend(GistTrace(gists[0].files, raw, regex), PageTrace(gists[1..], raw, regex));
    }
  }

  /** One iteration of the loop over a page that yields. */
  lemma RunFromYield(api: Api, username: string, regex: Regex, page: nat, gists: seq<Gist>)
    requires page <= 5
    requires Classify(api.listing(username, page + 1)) == Yield(gists)
    ensures var rest := RunFrom(api, username, regex, page + 1);
            RunFrom(api, username, regex, page) ==
              Run(Prepend(PageMatches(gists, api.raw, regex), rest.outcome),
                  [PageGet(username, page + 1)] + PageTrace(gists, api.raw, regex) + rest.trace)
  {
  }

  /** A page that yields is requested, then its gists are scanned, then the loop goes on. */
  lemma PageNumbersAfterYield(api: Api, username: string, regex: Regex, page: nat, gists: seq<Gist>)
    requires page <= 5
    requires Classify(api.listing(username, page + 1)) == Yield(gists)
    ensures PageNumbers(RunFrom(api, username, regex, page).trace) ==
              [page + 1] + PageNumbers(RunFrom(api, username, regex, page + 1).trace)
  {
    var get := [PageGet(username, page + 1)];
    var pageTrace := PageTrace(gists, api.raw, regex);
    var rest := RunFrom(api, username, regex, page + 1);
    RunFromYield(api, username, regex, page, gists);
    PageTraceRequestsNoPages(gists, api.raw, regex);
    assert PageNumbers(get) == [page + 1];
    PageNumbersAppend(get, pageTrace);
    PageNumbersAppend(get + pageTrace, rest.trace);
  }

  /**
   * The listing requests the loop makes, among all its requests, are
   * exactly those of the generator driven to its end: scanning gists never
   * requests a listing page.
   */
  lemma {:induction false} RunRequestsListedPages(api: Api, username: string, regex: Regex, page: nat)
    requires page <= 6
    ensures PageNumbers(RunFrom(api, username, regex, page).trace) == RequestedPages(api.listing, username, page)
    decreases 6 - page
  {
    if page <= 5 {
      var step := Classify(api.listing(username, page + 1));
      if step.Yield? {
        PageNumbersAfterYield(api, username, regex, page, step.page);
        RunRequestsListedPages(api, username, regex, page + 1);
      } else {
        assert RunFrom(api, username, regex, page).trace == [PageGet(username, page + 1)];
      }
    }
  }

  /**
   * The reference reading of the loop: its outcome is the listing's
   * exception if the generator raised one, and otherwise the URLs of the
   * matching gists of all yielded pages, in page order and then in order
   * within each page.
   */
  lemma {:induction false} RunAgreesWithListing(api: Api, username: string, regex: Regex, page: nat)
    requires page <= 6
    ensures var l := ListFrom(api.listing, username, page);
            RunFrom(api, username, regex, page).outcome ==
              if l.error.Some? then Failed(l.error.value)
              else Matched(PageMatches(Flatten(l.pages), api.raw, regex))
    decreases 6 - page
  {
    if page <= 5 {
      match Classify(api.listing(username, page + 1))
      case Exhausted =>
      case Raise(_) =>
      case Yield(gists) =>
        RunFromYield(api, username, regex, page, gists);
        ListFromYield(api.listing, username, page, gists);
        RunAgreesWithListing(api, username, regex, page + 1);
        var rest := ListFrom(api.listing, username, page + 1);
        assert ([gists] + rest.pages)[1..] == rest.pages;
        PageMatchesAppend(gists, Flatten(rest.pages), api.raw, regex);
    }
  }

  /**
   * End to end: a well-formed search answers 404 with the user named in the
   * message when the listing raised UserNotFound, 500 "Internal error" when
   * it raised either other exception, and otherwise 200 with the user name,
   * the pattern text and the URLs of the matching gists of all yielded pages.
   * No error reply carries the matches collected before the exception.
   */
  lemma SearchReplyFollowsListing(api: Api, request: SearchRequest, compiled: string -> bool)
    ensures var l := ListFrom(api.listing, request.username, 0);
            var r := SearchReply(api, WellFormed(request), compiled);
            && (l.error == Some(UserNotFound) ==>
                  r == Reply(ErrorBody("User " + request.username + " not found"), StatusNotFound))
            && (l.error == Some(MalformedResponse) || l.error == Some(UnexpectedStatusCode) ==>
                  r == Reply(ErrorBody("Internal error"), StatusInternalError))
            && (l.error == None ==>
                  r == Reply(SuccessBody(request.username, request.pattern,
                                         PageMatches(Flatten(l.pages), api.raw, Compile(request.pattern, compiled))),
                             StatusOk))
  {
    RunAgreesWithListing(api, request.username, Compile(request.pattern, compiled), 0);
  }

  /**
   * A search whose listing pages 1 .. stop - 1 all yield and whose page
   * `stop` does not (or `stop == 7`: all six pages yield) requests exactly
   * the listing pages 1 .. stop, never more than 6.
   */
  lemma SearchRequestsPagesUpToStop(api: Api, request: SearchRequest, compiled: string -> bool, stop: nat)
    requires 1 <= stop <= 7
    requires forall n :: 1 <= n < stop ==> Classify(api.listing(request.username, n)).Yield?
    requires stop <= 6 ==> !Classify(api.listing(request.username, stop)).Yield?
    ensures var ns := PageNumbers(SearchTrace(api, WellFormed(request), compiled));
            && |ns| == (if stop <= 6 then stop else 6)
            && forall i :: 0 <= i < |ns| ==> ns[i] == i + 1
  {
    ListingThroughYields(api.listing, request.username, 0, stop);
    RequestedPagesInOrder(api.listing, request.username, 0);
    RunRequestsListedPages(api, request.username, Compile(request.pattern, compiled), 0);
  }

  /**
   * The reply of a search whose listing pages 1 .. stop - 1 all yield and
   * whose page `stop` does not (or `stop == 7`): 404 if page `stop` said
   * 404, 500 if it said 403 or any other status but 200 or held a malformed
   * body, and otherwise 200 with the matches among the gists of pages
   * 1 .. stop - 1.
   */
  lemma SearchReplyAtStop(api: Api, request: SearchRequest, compiled: string -> bool, stop: nat)
    requires 1 <= stop <= 7
    requires forall n :: 1 <= n < stop ==> Classify(api.listing(request.username, n)).Yield?
    requires stop <= 6 ==> !Classify(api.listing(request.username, stop)).Yield?
    ensures var r := SearchReply(api, WellFormed(request), compiled);
            var last := api.listing(request.username, stop);
            var pages := seq(stop - 1, i requires 0 <= i < stop - 1 =>
                               Classify(api.listing(request.username, i + 1)).page);
            && (stop <= 6 && last.status == StatusNotFound ==>
                  r == Reply(ErrorBody("User " + request.username + " not found"), StatusNotFound))
            && (stop <= 6 && last.status != StatusOk && last.status != StatusNotFound ==>
                  r == Reply(ErrorBody("Internal error"), StatusInternalError))
            && (stop <= 6 && last.status == StatusOk && last.payload == Unparsable ==>
                  r == Reply(ErrorBody("Internal error"), StatusInternalError))
            && (stop == 7 || (last.status == StatusOk && IsFalsy(last.payload)) ==>
                  r == Reply(SuccessBody(request.username, request.pattern,
                                         PageMatches(Flatten(pages), api.raw, Compile(request.pattern, compiled))),
                             StatusOk))
  {
    ListingUpToStop(api.listing, request.username, stop);
    SearchReplyFollowsListing(api, request, compiled);
  }

  /** When every one of pages 1 to 6 is a full page, exactly those six pages are requested. */
  lemma SixPagesWhenEveryPageYields(api: Api, request: SearchRequest, compiled: string -> bool)
    requires forall n :: 1 <= n <= 6 ==> Classify(api.listing(request.username, n)).Yield?
    ensures PageNumbers(SearchTrace(api, WellFormed(request), compiled)) == [1, 2, 3, 4, 5, 6]
  {
    SearchRequestsPagesUpToStop(api, request, compiled, 7);
  }

  /** A user GitHub does not know: page 1 answers 404. */
  lemma ScenarioUnknownUser(compiled: string -> bool, raw: string -> seq<string>)
    ensures var api := Api((u: string, n: nat) => Response(404, Falsy), raw);
            && SearchReply(api, WellFormed(SearchRequest("ghost", "^TODO")), compiled)
               == Reply(ErrorBody("User ghost not found"), 404)
            && PageNumbers(SearchTrace(api, WellFormed(SearchRequest("ghost", "^TODO")), compiled)) == [1]
  {
    var api := Api((u: string, n: nat) => Response(404, Falsy), raw);
    SearchRequestsPagesUpToStop(api, SearchRequest("ghost", "^TODO"), compiled, 1);
    SearchReplyAtStop(api, SearchRequest("ghost", "^TODO"), compiled, 1);
  }

  /**
   * One gist with one file whose first line matches, then an empty page:
   * the gist's URL is the only match.
   */
  lemma ScenarioOneMatchingGist(compiled: string -> bool)
    requires compiled("TODO: fix")
    ensures var gist := Gist("https://gist.github.com/alice/1", [FileEntry("notes.txt", GistFile("raw-1"))]);
            var api := Api((u: string, n: nat) => if n == 1 then Response(200, GistList([gist])) else Response(200, GistList([])),
                           (url: string) => if url == "raw-1" then ["TODO: fix", "done"] else []);
            SearchReply(api, WellFormed(SearchRequest("alice", "^TODO")), compiled)
            == Reply(SuccessBody("alice", "^TODO", ["https://gist.github.com/alice/1"]), 200)
  {
    var gist := Gist("https://gist.github.com/alice/1", [FileEntry("notes.txt", GistFile("raw-1"))]);
    var api := Api((u: string, n: nat) => if n == 1 then Response(200, GistList([gist])) else Response(200, GistList([])),
                   (url: string) => if url == "raw-1" then ["TODO: fix", "done"] else []);
    var request := SearchRequest("alice", "^TODO");
    var regex := Compile(request.pattern, compiled);
    assert api.raw(gist.files[0].file.rawUrl)[0] == "TODO: fix";
    assert FileMatches(api.raw(gist.files[0].file.rawUrl), regex);
    assert GistMatches(gist, api.raw, regex);
    SearchReplyAtStop(api, request, compiled, 2);
    assert Flatten([[gist]]) == [gist];
  }

  /**
   * The inner loop of `search()` over one page: appends to `matches` the
   * `html_url` of each gist of the page that the matcher accepts.
   */
  method AppendPageMatches(session: Session, gists: seq<Gist>, regex: Regex, matches: seq<string>)
    returns (extended: seq<string>)
    modifies session`log
    ensures extended == matches + PageMatches(gists, session.api.raw, regex)
    ensures session.log == old(session.log) + PageTrace(gists, session.api.raw, regex)
  {
    var raw := session.api.raw;
    extended := matches;
    for k := 0 to |gists|
      invariant extended + PageMatches(gists[k..], raw, regex) == matches + PageMatches(gists, raw, regex)
      invariant session.log + PageTrace(gists[k..], raw, regex) == old(session.log) + PageTrace(gists, raw, regex)
    {
      ghost var tail := gists[k + 1..];
      assert gists[k..][1..] == tail;
      ghost var own := if GistMatches(gists[k], raw, regex) then [gists[k].htmlUrl] else [];
      assert PageMatches(gists[k..], raw, regex) == own + PageMatches(tail, raw, regex);
      assert PageTrace(gists[k..], raw, regex) == GistTrace(gists[k].files, raw, regex) + PageTrace(tail, raw, regex);
      ghost var logBefore := session.log;
      ghost var extendedBefore := extended;
      var found := MatchGist(session, gists[k], regex);
      if found {
        extended := extended + [gists[k].htmlUrl];
      }
      assert extended == extendedBefore + own;
      assert session.log == logBefore + GistTrace(gists[k].files, raw, regex);
      AppendAssoc(extendedBefore, own, PageMatches(tail, raw, regex));
      AppendAssoc(logBefore, GistTrace(gists[k].files, raw, regex), PageTrace(tail, raw, regex));
    }
    assert gists[|gists|..] == [];
  }

  /** `search()`: the handler, with every remote request it makes recorded in the session's log. */
  method Search(session: Session, inbound: Inbound, compiled: string -> bool) returns (reply: Reply)
    modifies session`log
    ensures reply == SearchReply(session.api, inbound, compiled)
    ensures session.log == old(session.log) + SearchTrace(session.api, inbound, compiled)
  {
    if inbound.IllFormed? {
      return Reply(ErrorBody(inbound.detail), StatusBadRequest);
    }
    var username := inbound.request.username;
    var regex := Compile(inbound.request.pattern, compiled);
    var api := session.api;
    ghost var run := RunFrom(api, username, regex, 0);

    var matches: seq<string> := [];
    var pager := new GistsForUser(username);
    var done := false;
    while !done
      invariant pager.username == username && pager.page <= 6
      invariant !done ==> !pager.finished
      invariant !done ==> Prepend(matches, RunFrom(api, username, regex, pager.page).outcome) == run.outcome
      invariant !done ==> session.log + RunFrom(api, username, regex, pager.page).trace == old(session.log) + run.trace
      invariant done ==> run.outcome == Matched(matches) && session.log == old(session.log) + run.trace
      decreases if done then 0 else 1, 6 - pager.page
    {
      ghost var before := session.log;
      ghost var rest := RunFrom(api, username, regex, pager.page);
      var step := pager.Next(session);
      match step
      case Exhausted =>
        done := true;
      case Raise(e) =>
        if e == UserNotFound {
          return Reply(ErrorBody("User " + username + " not found"), StatusNotFound);
        }
        return Reply(ErrorBody("Internal error"), StatusInternalError);
      case Yield(gists) =>
        ghost var next := RunFrom(api, username, regex, pager.page);
        ghost var earlier := matches;
        matches := AppendPageMatches(session, gists, regex, matches);
        ghost var pageMatches := PageMatches(gists, api.raw, regex);
        assert rest.outcome == Prepend(pageMatches, next.outcome);
        if next.outcome.Matched? {
          AppendAssoc(earlier, pageMatches, next.outcome.urls);
        }
        ghost var get := [PageGet(username, pager.page)];
        ghost var pageTrace := PageTrace(gists, api.raw, regex);
        assert rest.trace == get + pageTrace + next.trace;
        AppendAssoc(before, get, pageTrace);
        AppendAssoc(before, get + pageTrace, next.trace);
    }
    reply := Reply(SuccessBody(username, regex.pattern, matches), StatusOk);
  }
}
