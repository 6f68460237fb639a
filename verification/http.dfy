/**
 * The remote side of the service: GitHub's listing endpoint and the raw file
 * contents, reached through a `requests` session. What the remote answers is
 * fixed data (`Api`); what the service asks for is recorded, in order, in
 * the session's ghost request log.
 */
module Http {
  import opened Schema

  /**
   * What GitHub answers: `listing(username, n)` is the response
   * `GET /users/{username}/gists?page=n` finally yields, and `raw(url)` the
   * lines of the streamed body of `GET url`, whatever its status. The
   * session's exhausted retries and transport failures, which raise instead
   * of answering, are not represented.
   */
  datatype Api = Api(listing: (string, nat) -> Response, raw: string -> seq<string>)

  /** One request the service makes, or one line it consumes from a streamed body. */
  datatype Event =
    | PageGet(username: string, page: nat)
    | FileGet(url: string)
    | LineRead(url: string, index: nat)

  /** The page numbers of the listing requests in a log, in order. */
  function PageNumbers(log: seq<Event>): seq<nat> {
    if log == [] then []
    else (if log[0].PageGet? then [log[0].page] else []) + PageNumbers(log[1..])
  }

  /** The URLs of the raw-content requests in a log, in order. */
  function FileGets(log: seq<Event>): seq<string> {
    if log == [] then []
    else (if log[0].FileGet? then [log[0].url] else []) + FileGets(log[1..])
  }

  /** Concatenation of logs (and of URL lists) is associative: a hint the loop proofs need to stay within their resource limit. */
  lemma AppendAssoc<T>(a: seq<T>, b: seq<T>, c: seq<T>)
    ensures (a + b) + c == a + (b + c)
  {
  }

  lemma {:induction false} PageNumbersAppend(a: seq<Event>, b: seq<Event>)
    ensures PageNumbers(a + b) == PageNumbers(a) + PageNumbers(b)
  {
    if a != [] {
      assert (a + b)[0] == a[0];
      assert (a + b)[1..] == a[1..] + b;
      PageNumbersAppend(a[1..], b);
      var h := if a[0].PageGet? then [a[0].page] else [];
      assert PageNumbers(a) == h + PageNumbers(a[1..]);
      assert PageNumbers(a + b) == h + (PageNumbers(a[1..]) + PageNumbers(b));
      assert PageNumbers(a) + PageNumbers(b) == h + (PageNumbers(a[1..]) + PageNumbers(b));
    } else {
      assert a + b == b;
    }
  }

  lemma {:induction false} FileGetsAppend(a: seq<Event>, b: seq<Event>)
    ensures FileGets(a + b) == FileGets(a) + FileGets(b)
  {
    if a != [] {
      assert (a + b)[0] == a[0];
      assert (a + b)[1..] == a[1..] + b;
      FileGetsAppend(a[1..], b);
      var h := if a[0].FileGet? then [a[0].url] else [];
      assert FileGets(a) == h + FileGets(a[1..]);
      assert FileGets(a + b) == h + (FileGets(a[1..]) + FileGets(b));
      assert FileGets(a) + FileGets(b) == h + (FileGets(a[1..]) + FileGets(b));
    } else {
      assert a + b == b;
    }
  }

  /** A log holding no listing request has no page numbers. */
  lemma {:induction false} NoPageGets(log: seq<Event>)
    requires forall k :: 0 <= k < |log| ==> !log[k].PageGet?
    ensures PageNumbers(log) == []
  {
    if log != [] {
      NoPageGets(log[1..]);
    }
  }

  /** A log holding no raw-content request has no file URLs. */
  lemma {:induction false} NoFileGets(log: seq<Event>)
    requires forall k :: 0 <= k < |log| ==> !log[k].FileGet?
    ensures FileGets(log) == []
  {
    if log != [] {
      NoFileGets(log[1..]);
    }
  }

  /**
   * The session every remote call goes through. Retries (`make_session`)
   * happen inside it; each call here returns the answer it finally yields.
   */
  class Session {
    const api: Api
    ghost var log: seq<Event>

    /** `session.get(gists_url, params={"page": page})`. */
    method GetGistsPage(username: string, page: nat) returns (r: Response)
      modifies this`log
      ensures r == api.listing(username, page)
      ensures log == old(log) + [PageGet(username, page)]
    {
      r := api.listing(username, page);
      log := log + [PageGet(username, page)];
    }

    /** `session.get(url, stream=True)`: opens the streamed body of a raw file. */
    method GetRaw(url: string)
      modifies this`log
      ensures log == old(log) + [FileGet(url)]
    {
      log := log + [FileGet(url)];
    }

    /**
     * The next step of `response.iter_lines()` on the body of `url`, whose
     * lines before `index` are already consumed: the line at `index`, or
     * None once the body is exhausted.
     */
    method NextLine(url: string, index: nat) returns (line: Option<string>)
      modifies this`log
      ensures index < |api.raw(url)| ==> line == Some(api.raw(url)[index])
      ensures index >= |api.raw(url)| ==> line == None
      ensures log == old(log) + if line.Some? then [LineRead(url, index)] else []
    {
      if index < |api.raw(url)| {
        line := Some(api.raw(url)[index]);
        log := log + [LineRead(url, index)];
      } else {
        line := None;
      }
    }
  }
}
