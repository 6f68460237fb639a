/**
 * The value shapes of the gist search service: what the GitHub listing
 * endpoint returns (one page of gist summaries), what the search endpoint
 * accepts and what it answers.
 */
module Schema {

  datatype Option<T> = None | Some(value: T)

  /** GistApiFileResponseSchema: one entry of a gist's `files` object. */
  datatype GistFile = GistFile(rawUrl: string)

  /** One key/value pair of a gist's `files` object. */
  datatype FileEntry = FileEntry(name: string, file: GistFile)

  /**
   * GistApiResponseSchema: one gist of a listing page. The `files` object is
   * a dictionary; its values are walked in insertion order, so it is kept
   * here as the sequence of its entries in that order.
   */
  datatype Gist = Gist(htmlUrl: string, files: seq<FileEntry>)

  /**
   * The decoded JSON payload of one listing page, as far as the fetcher
   * tells payloads apart: a falsy value (`null`, `[]`, `{}`, `0`, `""`,
   * `false`), a truthy value that does not parse as a list of gists, or a
   * list of gists.
   */
  datatype Payload = Falsy | Unparsable | GistList(gists: seq<Gist>)

  /** Python's `not data`: an empty list of gists is falsy as well. */
  predicate IsFalsy(p: Payload) {
    p.Falsy? || p == GistList([])
  }

  /** A final response of the listing endpoint, after the session's retries. */
  datatype Response = Response(status: int, payload: Payload)

  const StatusOk := 200
  const StatusBadRequest := 400
  const StatusForbidden := 403
  const StatusNotFound := 404
  const StatusInternalError := 500

  /** The three exception classes the fetcher raises. */
  datatype FetchError = UserNotFound | MalformedResponse | UnexpectedStatusCode

  /** SearchRequestSchema. */
  datatype SearchRequest = SearchRequest(username: string, pattern: string)

  /**
   * The inbound POST body after `SearchRequestSchema.parse_obj`: either a
   * request, or the validation error's JSON detail.
   */
  datatype Inbound = WellFormed(request: SearchRequest) | IllFormed(detail: string)

  /** The JSON body of a reply: an error, or SearchResponseSchema. */
  datatype ReplyBody =
    | ErrorBody(message: string)
    | SuccessBody(username: string, pattern: string, matches: seq<string>)
  {
    /** The body's `status` field. */
    function Status(): string {
      if ErrorBody? then "error" else "success"
    }
  }

  /** A reply: its JSON body and its HTTP status code. */
  datatype Reply = Reply(body: ReplyBody, code: int)
}
