/**
 * `gists_for_user`: a generator that requests the listing pages 1, 2, 3, ...
 * of a user's gists, classifies each response and yields the parsed pages.
 */
module Fetcher {
  import opened Schema
  import opened Http

  /** What one resumption of the generator produces. */
  datatype Step =
    | Yield(page: seq<Gist>)     // a parsed, non-empty page
    | Exhausted                  // StopIteration: no more pages
    | Raise(error: FetchError)   // one of the fetcher's exceptions

  /** How one listing response is handled: the status first, then the body. */
  function Classify(r: Response): (step: Step)
    ensures r.status != StatusOk ==> step.Raise?
    ensures step == Raise(UserNotFound) <==> r.status == StatusNotFound
    ensures step == Raise(UnexpectedStatusCode) <==> r.status != StatusOk && r.status != StatusNotFound
    ensures step == Exhausted <==> r.status == StatusOk && IsFalsy(r.payload)
    ensures step == Raise(MalformedResponse) <==> r.status == StatusOk && r.payload == Unparsable
    ensures step.Yield? <==> r.status == StatusOk && r.payload.GistList? && r.payload.gists != []
    ensures step.Yield? ==> r.payload == GistList(step.page)
  {
    if r.status == StatusNotFound then Raise(UserNotFound)
    else if r.status == StatusForbidden then Raise(UnexpectedStatusCode)
    else if r.status != StatusOk then Raise(UnexpectedStatusCode)
    else if IsFalsy(r.payload) then Exhausted
    else match r.payload
      case Unparsable => Raise(MalformedResponse)
      case GistList(gists) => Yield(gists)
  }

  /** Everything the generator produces once its counter stands at `page`. */
  datatype Listing = Listing(pages: seq<seq<Gist>>, error: Option<FetchError>)

  /**
   * The pages the generator yields after its counter reached `page`, and the
   * exception that ends it, if any. The loop guard `page <= 5` is tested
   * before the counter is incremented, so the last page requested is page 6.
   */
  ghost function ListFrom(listing: (string, nat) -> Response, username: string, page: nat): (l: Listing)
    requires page <= 6
    ensures page + |l.pages| <= 6
    ensures l.error.Some? ==> page + |l.pages| < 6
    decreases 6 - page
  {
    if page > 5 then Listing([], None)
    else
      match Classify(listing(username, page + 1))
      case Exhausted => Listing([], None)
      case Raise(e) => Listing([], Some(e))
      case Yield(gists) =>
        var rest := ListFrom(listing, username, page + 1);
        Listing([gists] + rest.pages, rest.error)
  }

  /**
   * The listing pages the generator requests, in order, when it is driven
   * to its end from counter `page`: the next page, and the ones after it
   * for as long as pages yield and the counter has not passed 5.
   */
  ghost function RequestedPages(listing: (string, nat) -> Response, username: string, page: nat): seq<nat>
    requires page <= 6
    decreases 6 - page
  {
    if page > 5 then []
    else [page + 1] + if Classify(listing(username, page + 1)).Yield? then RequestedPages(listing, username, page + 1) else []
  }

  /**
   * The generator requests pages page + 1, page + 2, ... in order: one for
   * every page it yields, plus the page that ended it unless the counter ran
   * out first. So it never requests a page past 6.
   */
  lemma {:induction false} RequestedPagesInOrder(listing: (string, nat) -> Response, username: string, page: nat)
    requires page <= 6
    ensures var ns := RequestedPages(listing, username, page);
            var yielded := |ListFrom(listing, username, page).pages|;
            && |ns| == yielded + (if page + yielded < 6 then 1 else 0)
            && page + |ns| <= 6
            && forall i :: 0 <= i < |ns| ==> ns[i] == page + 1 + i
    decreases 6 - page
  {
    if page <= 5 {
      var step := Classify(listing(username, page + 1));
      if step.Yield? {
        ListFromYield(listing, username, page, step.page);
        RequestedPagesInOrder(listing, username, page + 1);
      }
    }
  }

  /** One resumption of the generator on a page that yields. */
  lemma ListFromYield(listing: (string, nat) -> Response, username: string, page: nat, gists: seq<Gist>)
    requires page <= 5
    requires Classify(listing(username, page + 1)) == Yield(gists)
    ensures var rest := ListFrom(listing, username, page + 1);
            ListFrom(listing, username, page) == Listing([gists] + rest.pages, rest.error)
  {
  }

  /**
   * The i-th page the generator yields is the parsed, non-empty body of
   * listing page `page + 1 + i`.
   */
  lemma {:induction false} ListedPagesAreYields(listing: (string, nat) -> Response, username: string, page: nat)
    requires page <= 6
    ensures var l := ListFrom(listing, username, page);
            forall i :: 0 <= i < |l.pages| ==>
              l.pages[i] != [] && Classify(listing(username, page + 1 + i)) == Yield(l.pages[i])
    decreases 6 - page
  {
    if page <= 5 {
      var step := Classify(listing(username, page + 1));
      if step.Yield? {
        ListFromYield(listing, username, page, step.page);
        ListedPagesAreYields(listing, username, page + 1);
      }
    }
  }

  /**
   * The listing goes on through the pages that yield and ends at the first
   * page, counting from `page + 1`, that does not: `stop`, or past page 6
   * when every page up to 6 yields (`stop == 7`). It yields the
   * `stop - page - 1` pages before `stop`, and ends with that page's
   * exception if it raised one, and without error otherwise.
   */
  lemma {:induction false} ListingThroughYields(listing: (string, nat) -> Response, username: string, page: nat, stop: nat)
    requires page < stop <= 7
    requires forall n :: page < n < stop ==> Classify(listing(username, n)).Yield?
    requires stop <= 6 ==> !Classify(listing(username, stop)).Yield?
    ensures |ListFrom(listing, username, page).pages| == stop - page - 1
    ensures ListFrom(listing, username, page).error ==
              if stop <= 6 && Classify(listing(username, stop)).Raise?
              then Some(Classify(listing(username, stop)).error)
              else None
    decreases stop - page
  {
    if page + 1 < stop {
      ListingThroughYields(listing, username, page + 1, stop);
    }
  }

  /**
   * Driven from the start, the generator yields the bodies of pages
   * 1 .. stop - 1 when those all yield and page `stop` does not (or
   * `stop == 7`), and ends as page `stop` says.
   */
  lemma ListingUpToStop(listing: (string, nat) -> Response, username: string, stop: nat)
    requires 1 <= stop <= 7
    requires forall n :: 1 <= n < stop ==> Classify(listing(username, n)).Yield?
    requires stop <= 6 ==> !Classify(listing(username, stop)).Yield?
    ensures ListFrom(listing, username, 0).pages ==
              seq(stop - 1, i requires 0 <= i < stop - 1 => Classify(listing(username, i + 1)).page)
    ensures ListFrom(listing, username, 0).error ==
              if stop <= 6 && Classify(listing(username, stop)).Raise?
              then Some(Classify(listing(username, stop)).error)
              else None
  {
    ListingThroughYields(listing, username, 0, stop);
    ListedPagesAreYields(listing, username, 0);
    var pages := seq(stop - 1, i requires 0 <= i < stop - 1 => Classify(listing(username, i + 1)).page);
    assert ListFrom(listing, username, 0).pages == pages;
  }

  /** The generator object `gists_for_user(username)`: its counter and whether it has finished. */
  class GistsForUser {
    const username: string
    var page: nat
    var finished: bool

    constructor (username: string)
      ensures this.username == username && page == 0 && !finished
    {
      this.username := username;
      page := 0;
      finished := false;
    }

    /**
     * Resumes the generator: unless it has finished or its counter is past 5,
     * increments the counter, requests that page and classifies the response;
     * anything but a yielded page finishes the generator.
     */
    method Next(session: Session) returns (step: Step)
      requires page <= 6
      modifies this`page, this`finished, session`log
      ensures page <= 6
      ensures old(finished) || old(page) > 5 ==>
                step == Exhausted && finished && page == old(page) && session.log == old(session.log)
      ensures !old(finished) && old(page) <= 5 ==>
                && page == old(page) + 1
                && step == Classify(session.api.listing(username, page))
                && session.log == old(session.log) + [PageGet(username, page)]
                && finished == !step.Yield?
    {
      if finished || page > 5 {
        finished := true;
        return Exhausted;
      }
      page := page + 1;
      var response := session.GetGistsPage(username, page);
      step := Classify(response);
      finished := !step.Yield?;
    }
  }
}
