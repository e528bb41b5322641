/**
 * The content script's module-level state and the handlers that change
 * it. Every DOM read arrives as a `Snapshot.Page`; the injected panel is
 * the `panel` field; score requests are appended to `issued`, and their
 * responses arrive later through `ReceiveScore`.
 */
module ContentScript {
  import opened Wrappers
  import opened JsText
  import opened Snapshot
  import opened Panel
  import opened PlaceInfo

  /** Which mutation observer is connected: the one on the whole document
      that waits for the two elements, or the one on those two elements. */
  datatype Phase = WaitingForElements | ObservingPlace

  class ContentScript {
    var isMinimized: bool
    var currentUrl: string
    var currentPlaceName: Option<string>
    var currentPlaceAddress: Option<string>
    /** The injected panel, None until the injection completes. */
    var panel: Option<PanelView>
    /** Whether the minimize and container click handlers were registered. */
    var handlersInstalled: bool
    var phase: Phase
    /** Every score request sent, in order. */
    var issued: seq<Request>
    /** How many of them have not been answered yet. */
    var pending: nat

    /** The part of the state that `updatePlaceInfo` reads and writes. */
    function Place(): Tracked
      reads this
    {
      Tracked(currentPlaceName, currentPlaceAddress, panel, issued, pending)
    }

    /** The panel exists only once the elements were found; handlers and
        requests only once the panel exists; the two collapsible parts
        always agree with each other and with `isMinimized`; and an empty
        string is never stored, since only truthy reads are. */
    ghost predicate Valid()
      reads this
    {
      && currentPlaceName != Some("") && currentPlaceAddress != Some("")
      && (panel.Some? ==> phase == ObservingPlace)
      && (handlersInstalled ==> panel.Some?)
      && (pending > 0 ==> panel.Some?)
      && pending <= |issued|
      && (panel.None? ==> isMinimized)
      && (panel.Some? ==>
            && panel.value.content == panel.value.button
            && (isMinimized <==> panel.value.content != Block))
    }

    /** Script start: the four module variables get their initial values
        and the document observer is connected. */
    constructor (href: string)
      ensures Valid()
      ensures isMinimized && currentUrl == href
      ensures currentPlaceName.None? && currentPlaceAddress.None?
      ensures panel.None? && !handlersInstalled && phase == WaitingForElements
      ensures issued == [] && pending == 0
    {
      isMinimized := true;
      currentUrl := href;
      currentPlaceName := None;
      currentPlaceAddress := None;
      panel := None;
      handlersInstalled := false;
      phase := WaitingForElements;
      issued := [];
      pending := 0;
    }

    /** The document observer's callback: once both elements are there it
        disconnects itself for good and the place observer takes over (the
        panel injection it also starts completes in `InitializePopup`). */
    method OnDocumentMutation(page: Page) returns (found: bool)
      requires Valid() && phase == WaitingForElements
      modifies this
      ensures Valid()
      ensures found == ElementsReady(page)
      ensures phase == (if found then ObservingPlace else WaitingForElements)
      ensures Place() == old(Place()) && isMinimized == old(isMinimized)
      ensures currentUrl == old(currentUrl) && handlersInstalled == old(handlersInstalled)
    {
      found := ElementsReady(page);
      if found {
        phase := ObservingPlace;
      }
    }

    /** The injected markup is in place: fill it from the page, then
        register the click handlers. A throw from `updatePlaceInfo` ends
        the function early, so the handlers are then never registered. */
    method InitializePopup(page: Page) returns (threw: bool)
      requires Valid() && phase == ObservingPlace && panel.None?
      modifies this
      ensures Valid()
      ensures Place() == UpdateEffect(old(Place()).(panel := Some(Injected)), page).after
      ensures threw == UpdateEffect(old(Place()).(panel := Some(Injected)), page).threw
      ensures handlersInstalled == !threw
      ensures isMinimized == old(isMinimized) && currentUrl == old(currentUrl) && phase == old(phase)
    {
      panel := Some(Injected);
      threw := UpdatePlaceInfo(page);
      if !threw {
        handlersInstalled := true;
      }
    }

    /** `updatePlaceInfo`, specified by `PlaceInfo.UpdateEffect`. */
    method UpdatePlaceInfo(page: Page) returns (threw: bool)
      requires Valid()
      modifies this
      ensures Valid()
      ensures Place() == UpdateEffect(old(Place()), page).after
      ensures threw == UpdateEffect(old(Place()), page).threw
      ensures isMinimized == old(isMinimized) && currentUrl == old(currentUrl)
      ensures handlersInstalled == old(handlersInstalled) && phase == old(phase)
    {
      if panel.None? {
        threw := true;
        return;
      }
      var name := PlaceName(page);
      var address := PlaceAddress(page);
      if Truthy(name) {
        panel := Some(panel.value.(nameText := name));
        currentPlaceName := name;
      } else {
        panel := Some(panel.value.(nameText := Some(NameMissing)));
      }
      if Truthy(address) {
        panel := Some(panel.value.(addressText := address));
        currentPlaceAddress := address;
        var city := City(address.value);
        if city.None? {
          threw := true;
          return;
        }
        FetchReviewModelScore(Request(name, city.value));
      } else {
        panel := Some(panel.value.(addressText := Some(AddressMissing)));
      }
      threw := false;
    }

    /** The synchronous part of `fetchReviewModelScore`: the skeleton
        replaces the score region and the request is sent. */
    method FetchReviewModelScore(request: Request)
      requires Valid() && panel.Some?
      modifies this`panel, this`issued, this`pending
      ensures Valid()
      ensures panel == Some(old(panel).value.(score := Skeleton))
      ensures issued == old(issued) + [request] && pending == old(pending) + 1
    {
      panel := Some(panel.value.(score := Skeleton));
      issued := issued + [request];
      pending := pending + 1;
    }

    /** The rest of `fetchReviewModelScore`, when one of the outstanding
        requests completes. Nothing records which request this is: the
        response is applied whether or not a later request was sent since. */
    method ReceiveScore(response: Response)
      requires Valid() && pending > 0
      modifies this`panel, this`pending
      ensures Valid()
      ensures panel == Some(old(panel).value.(score := AfterResponse(old(panel).value.score, response)))
      ensures pending == old(pending) - 1
    {
      panel := Some(panel.value.(score := AfterResponse(panel.value.score, response)));
      pending := pending - 1;
    }

    /** A click on the minimize button: hides the content and the button
        and sets the flag. Propagation is stopped, so the container's
        handler does not run for this click. */
    method ClickMinimizeButton()
      requires Valid() && panel.Some?
      modifies this`panel, this`isMinimized
      ensures Valid()
      ensures old(handlersInstalled) ==>
        isMinimized && panel == Some(old(panel).value.(content := Hidden, button := Hidden))
      ensures !old(handlersInstalled) ==> isMinimized == old(isMinimized) && panel == old(panel)
    {
      if handlersInstalled {
        panel := Some(panel.value.(content := Hidden, button := Hidden));
        isMinimized := true;
      }
    }

    /** A click anywhere else on the panel: shows the content and the
        button when minimized, and does nothing when already maximized. */
    method ClickContainer()
      requires Valid() && panel.Some?
      modifies this`panel, this`isMinimized
      ensures Valid()
      ensures old(handlersInstalled && isMinimized) ==>
        !isMinimized && panel == Some(old(panel).value.(content := Block, button := Block))
      ensures !old(handlersInstalled && isMinimized) ==> isMinimized == old(isMinimized) && panel == old(panel)
    {
      if handlersInstalled && isMinimized {
        panel := Some(panel.value.(content := Block, button := Block));
        isMinimized := false;
      }
    }

    /** The place observer's callback: every batch of mutations runs
        `updatePlaceInfo`, with no comparison against the stored pair. */
    method OnPlaceMutation(page: Page) returns (threw: bool)
      requires Valid() && phase == ObservingPlace
      modifies this
      ensures Valid()
      ensures Place() == UpdateEffect(old(Place()), page).after
      ensures threw == UpdateEffect(old(Place()), page).threw
      ensures isMinimized == old(isMinimized) && currentUrl == old(currentUrl)
      ensures handlersInstalled == old(handlersInstalled) && phase == old(phase)
    {
      threw := UpdatePlaceInfo(page);
    }

    /** `retryUpdatePlaceInfo()` with its default budget, as a loop: attempt
        `i` reads `pages[i]`. Specified by `PlaceInfo.RetryEffect`. */
    method RetryUpdatePlaceInfo(pages: seq<Page>) returns (attempts: nat, threw: bool)
      requires Valid() && |pages| == MaxRetries
      modifies this
      ensures Valid()
      ensures Place() == RetryEffect(old(Place()), pages).after
      ensures attempts == RetryEffect(old(Place()), pages).attempts
      ensures threw == RetryEffect(old(Place()), pages).threw
      ensures isMinimized == old(isMinimized) && currentUrl == old(currentUrl)
      ensures handlersInstalled == old(handlersInstalled) && phase == old(phase)
    {
      ghost var t := Place();
      var retries := MaxRetries;
      attempts, threw := 0, false;
      while retries > 0
        invariant 0 <= retries <= MaxRetries && attempts == MaxRetries - retries
        invariant unchanged(this) && !threw
        invariant forall j :: 0 <= j < attempts ==> !Changed(pages[j], t.name, t.address)
      {
        var page := pages[attempts];
        attempts := attempts + 1;
        if Changed(page, currentPlaceName, currentPlaceAddress) {
          threw := UpdatePlaceInfo(page);
          return;
        }
        retries := retries - 1;
      }
    }

    /** One tick of the URL poll: a new URL is recorded first and then
        starts a retry chain; the same URL does nothing. */
    method PollUrl(href: string, pages: seq<Page>) returns (retried: bool, attempts: nat, threw: bool)
      requires Valid() && |pages| == MaxRetries
      modifies this
      ensures Valid()
      ensures retried == (href != old(currentUrl)) && currentUrl == href
      ensures retried ==>
        && Place() == RetryEffect(old(Place()), pages).after
        && attempts == RetryEffect(old(Place()), pages).attempts
        && threw == RetryEffect(old(Place()), pages).threw
      ensures !retried ==> Place() == old(Place()) && attempts == 0 && !threw
      ensures isMinimized == old(isMinimized)
      ensures handlersInstalled == old(handlersInstalled) && phase == old(phase)
    {
      retried, attempts, threw := false, 0, false;
      if currentUrl != href {
        currentUrl := href;
        retried := true;
        attempts, threw := RetryUpdatePlaceInfo(pages);
      }
    }
  }
}
