/** What the request handlers see and produce: the caller attached to a
    session, the JSON responses they send, the request they make to the news
    service and the answer it gives. */
module Http {
  import opened JsValues
  import opened Schema

  /** The authenticated user of a request; `None` when `isAuthenticated()` is false. */
  type Caller = Option<User>

  /** The JSON bodies the handlers send. */
  datatype Body =
    | NoBody
    | Message(message: string)
    | InterestJson(interest: Interest)
    | InterestsJson(interests: seq<Interest>)
    | ArticleJson(article: Article)
    | SummaryJson(summary: string)
    | UpstreamJson(payload: string)
    | CustomNewsJson(news: string, interestNames: seq<string>, generatedQuery: string)

  datatype Response = Response(status: int, body: Body)

  const Unauthorized := Response(401, Message("Authentication required"))

  /** The news service's answer to a request: a reply with its status and its
      text, or a failure that made `fetch` or the decoding of its JSON throw.
      A successful reply's text is the JSON payload. */
  datatype Upstream = Threw | Replied(status: int, text: string)
  {
    /** `response.ok`: the status is in the 2xx range. */
    predicate Ok() {
      Replied? && 200 <= status <= 299
    }
  }

  predicate IsSuccess(status: int) {
    200 <= status <= 299
  }

  /** A request to the news service: its URL and the `X-Api-Key` header. */
  datatype Outbound = Outbound(url: string, apiKey: string)

  /** What a handler did: the request it sent to the news service, if any,
      and the response it gave. */
  datatype Exchange = Exchange(sent: Option<Outbound>, response: Response)

  /** The credential policy both services follow: the caller's own key when
      it is set and non-empty, else the configured default, else "". */
  function SelectKey(personal: Option<string>, fallback: Option<string>): (k: string)
    ensures Truthy(personal) ==> k == personal.value
    ensures !Truthy(personal) && Truthy(fallback) ==> k == fallback.value
    ensures k == "" <==> !Truthy(personal) && !Truthy(fallback)
  {
    if Truthy(personal) then personal.value else OrEmpty(fallback)
  }
}
