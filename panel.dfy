/**
 * The injected panel as the content script leaves it: the two text
 * fields, the score region and the visibility of the collapsible parts;
 * and the score request and its response.
 */
module Panel {
  import opened Wrappers
  import opened JsText

  /** Placeholder texts written when a read comes back empty or null. */
  const NameMissing: string := "Place name not found."
  const AddressMissing: string := "Address not found."

  /** An element's `style.display`: untouched since injection, "block" or "none". */
  datatype Display = AsMarkup | Block | Hidden

  /** The score region: the injected markup, the skeleton loader, or a
      rendered score. */
  datatype ScoreView = AsInjected | Skeleton | Rated(score: real)

  /** `nameText` and `addressText` are None while they still hold the
      injected markup's text. */
  datatype PanelView = PanelView(
    nameText: Option<string>,
    addressText: Option<string>,
    score: ScoreView,
    content: Display,
    button: Display)

  /** The panel right after injection. */
  const Injected: PanelView := PanelView(None, None, AsInjected, AsMarkup, AsMarkup)

  /** A score request: the name as read (possibly null or empty) and the
      city derived from the address. */
  datatype Request = Request(name: Option<string>, city: string)

  /** The text that is URL-encoded into the `place_name` parameter:
      `${placeName} ${placeCity}`. */
  function QueryText(r: Request): string
  {
    Interpolate(r.name) + " " + r.city
  }

  /** The query for a listing named "Cafe Luna" in "Springfield". */
  lemma ListingQuery()
    ensures QueryText(Request(Some("Cafe Luna"), "Springfield")) == "Cafe Luna Springfield"
  {
  }

  /** How a score request ends: the HTTP status and the parsed `score`
      field (None when the body is not valid JSON), or a transport error. */
  datatype Response = Http(status: int, score: Option<real>) | NetworkError

  /** `response.ok` holds for the statuses 200 to 299. */
  predicate StatusOk(status: int)
  {
    200 <= status <= 299
  }

  /** A response that reaches `displayReviewModelScore`. */
  predicate Succeeded(r: Response)
  {
    r.Http? && StatusOk(r.status) && r.score.Some?
  }

  /** The score region after a response arrives: a successful response
      renders its score; a non-ok status, a body that does not parse or a
      network error is caught and only logged, so the region keeps what it
      showed: the skeleton, unless a response to an earlier request was
      rendered since. */
  function AfterResponse(view: ScoreView, r: Response): (v: ScoreView)
    ensures Succeeded(r) ==> v == Rated(r.score.value)
    ensures !Succeeded(r) ==> v == view
  {
    match r
    case NetworkError => view
    case Http(status, score) =>
      if !StatusOk(status) then view
      else if score.None? then view
      else Rated(score.value)
  }

  /** Starting from the skeleton, the region shows a score exactly when the
      response succeeded, and it never reaches a separate failure state. */
  lemma SkeletonThenResponse(r: Response)
    ensures AfterResponse(Skeleton, r).Rated? <==> Succeeded(r)
    ensures AfterResponse(Skeleton, r) == Skeleton <==> !Succeeded(r)
  {
  }

  /** Responses are applied in the order they arrive, whatever order the
      requests were sent in: a successful response that arrives last is
      what the region shows. */
  lemma LastArrivalWins(view: ScoreView, earlier: Response, later: Response)
    requires Succeeded(later)
    ensures AfterResponse(AfterResponse(view, earlier), later) == Rated(later.score.value)
  {
  }

  /** A failure does not restore the skeleton: when an earlier request's
      score was rendered after the skeleton, a later request that fails
      leaves that earlier score on display. */
  lemma EarlierScoreSurvivesLaterFailure(earlier: Response, later: Response)
    requires Succeeded(earlier) && !Succeeded(later)
    ensures AfterResponse(AfterResponse(Skeleton, earlier), later) == Rated(earlier.score.value)
  {
  }
}
