/**
 * The place-tracking logic of the content script: what one run of
 * `updatePlaceInfo` does to the tracked state, and what one retry chain
 * started by a URL change does. These functions specify the methods of
 * `ContentScript.ContentScript`.
 */
module PlaceInfo {
  import opened Wrappers
  import opened JsText
  import opened Snapshot
  import opened Panel

  /** Attempts a retry chain starts with (the default of `retries`). */
  const MaxRetries: int := 5

  /** `placeAddress.split(",")[1].trim()`; None where that expression throws
      because the address has no comma and the second piece is undefined. */
  function City(address: string): (r: Option<string>)
    ensures r.Some? <==> ',' in address
  {
    var parts := Split(address, ',');
    SplitHasSeveralPieces(address, ',');
    if |parts| > 1 then Some(Trim(parts[1])) else None
  }

  /** The city is the trimmed text between the first and the second comma
      (or the end of the address). */
  lemma CityOfSegments(first: string, second: string, tail: string)
    requires ',' !in first && ',' !in second
    requires tail == [] || tail[0] == ','
    ensures City(first + [','] + second + tail) == Some(Trim(second))
  {
    var rest := [','] + second + tail;
    assert first + [','] + second + tail == first + rest;
    SplitPrefix(first, rest, ',');
    assert rest[0] == ',' && rest[1..] == second + tail;
    var pr := Split(rest, ',');
    assert pr == [""] + Split(second + tail, ',');
    SplitPrefix(second, tail, ',');
    var pt := Split(tail, ',');
    if tail != [] {
      assert pt == [""] + Split(tail[1..], ',');
    }
    assert pt[0] == "";
    assert second + "" == second;
    assert Split(first + rest, ',')[1] == pr[1] == second;
  }

  lemma ListingSegments()
    ensures "123 Main St, Springfield, USA" == "123 Main St" + [','] + " Springfield" + ", USA"
    ensures ',' !in "123 Main St" && ',' !in " Springfield"
    ensures ", USA"[0] == ','
  {
  }

  lemma ListingTown()
    ensures Trim(" Springfield") == "Springfield"
  {
    assert " Springfield" == " " + "Springfield" + "";
    TrimExact(" ", "Springfield", "");
  }

  /** The address of a typical listing yields its town. */
  lemma CityOfListing()
    ensures City("123 Main St, Springfield, USA") == Some("Springfield")
  {
    ListingSegments();
    ListingTown();
    CityOfSegments("123 Main St", " Springfield", ", USA");
  }

  /** The module-level `currentPlaceName` and `currentPlaceAddress`, the
      injected panel (None before injection), the score requests issued so
      far and how many of them have not been answered. */
  datatype Tracked = Tracked(
    name: Option<string>,
    address: Option<string>,
    panel: Option<PanelView>,
    issued: seq<Request>,
    pending: nat)

  /** The tracked state after a call, and whether the call threw. */
  datatype Step = Step(after: Tracked, threw: bool)

  /** One call of `updatePlaceInfo` on what `page` shows.
      Before the panel exists, the first write into it throws and nothing
      changes. Otherwise each text field shows the value read, or its
      placeholder when the value is falsy; a truthy value is also stored.
      A truthy address leads to a score request for (name as read, city),
      or to a throw after it was stored when it has no comma. */
  function UpdateEffect(t: Tracked, page: Page): (s: Step)
    ensures t.panel.None? ==> s == Step(t, true)
    ensures t.panel.Some? ==> s.after.panel.Some?
    // the name: stored and shown when truthy, otherwise the old one is kept and the placeholder shown
    ensures t.panel.Some? && Truthy(PlaceName(page)) ==>
      s.after.name == PlaceName(page) && s.after.panel.value.nameText == PlaceName(page)
    ensures t.panel.Some? && !Truthy(PlaceName(page)) ==>
      s.after.name == t.name && s.after.panel.value.nameText == Some(NameMissing)
    // the address, likewise; it is stored even when the city cannot be derived
    ensures t.panel.Some? && Truthy(PlaceAddress(page)) ==>
      s.after.address == PlaceAddress(page) && s.after.panel.value.addressText == PlaceAddress(page)
    ensures t.panel.Some? && !Truthy(PlaceAddress(page)) ==>
      s.after.address == t.address && s.after.panel.value.addressText == Some(AddressMissing)
    // the only throws: no panel yet, or a truthy address without a comma
    ensures s.threw <==> t.panel.None? || (Truthy(PlaceAddress(page)) && ',' !in PlaceAddress(page).value)
    // a score request is issued exactly when the address is truthy and has a comma
    ensures |s.after.issued| >= |t.issued| && s.after.issued[..|t.issued|] == t.issued
    ensures |s.after.issued| == |t.issued| + 1 <==>
      t.panel.Some? && Truthy(PlaceAddress(page)) && ',' in PlaceAddress(page).value
    ensures |s.after.issued| <= |t.issued| + 1
    ensures s.after.pending - t.pending == |s.after.issued| - |t.issued|
    ensures |s.after.issued| > |t.issued| ==>
      && s.after.issued[|t.issued|] == Request(PlaceName(page), City(PlaceAddress(page).value).value)
      && s.after.panel.value.score == Skeleton
    ensures t.panel.Some? && |s.after.issued| == |t.issued| ==>
      s.after.panel.value.score == t.panel.value.score
    // the visibility of the collapsible parts is not touched
    ensures t.panel.Some? ==>
      s.after.panel.value.content == t.panel.value.content && s.after.panel.value.button == t.panel.value.button
  {
    match t.panel
    case None => Step(t, true)
    case Some(view) =>
      var name := PlaceName(page);
      var address := PlaceAddress(page);
      var storedName := if Truthy(name) then name else t.name;
      var shown := view.(nameText := if Truthy(name) then name else Some(NameMissing));
      if !Truthy(address) then
        Step(t.(name := storedName, panel := Some(shown.(addressText := Some(AddressMissing)))), false)
      else
        var stored := t.(name := storedName, address := address);
        var withAddress := shown.(addressText := address);
        match City(address.value)
        case None => Step(stored.(panel := Some(withAddress)), true)
        case Some(city) =>
          Step(stored.(panel := Some(withAddress.(score := Skeleton)),
                       issued := t.issued + [Request(name, city)],
                       pending := t.pending + 1), false)
  }

  /** The test of one retry attempt: both elements are there, the address
      element has two children, and the texts differ from the stored pair.
      Unlike `updatePlaceInfo`, it compares empty strings as values. */
  predicate Changed(page: Page, name: Option<string>, address: Option<string>)
  {
    ElementsReady(page) && (PlaceName(page) != name || PlaceAddress(page) != address)
  }

  /** The outcome of a retry chain: the `retries` argument of each call in
      order, and the attempt at which a change was detected, if any. */
  datatype RetryRun = RetryRun(budgets: seq<int>, detected: Option<nat>)

  /** `retryUpdatePlaceInfo(retries)` against the stored pair, where attempt
      `i` reads `pages[i]`: a call with a budget of zero or less stops; a
      call that sees a change stops (and runs `updatePlaceInfo`); any other
      call reschedules itself with one attempt fewer. */
  function Retry(pages: seq<Page>, name: Option<string>, address: Option<string>, retries: int): (r: RetryRun)
    requires retries <= |pages|
    ensures |r.budgets| >= 1
    ensures forall i :: 0 <= i < |r.budgets| ==> r.budgets[i] == retries - i
    ensures forall i :: 0 <= i < |r.budgets| - 1 ==> r.budgets[i] > 0
    ensures r.detected.Some? ==>
      && r.detected.value < retries
      && |r.budgets| == r.detected.value + 1
      && Changed(pages[r.detected.value], name, address)
      && forall j :: 0 <= j < r.detected.value ==> !Changed(pages[j], name, address)
    ensures r.detected.None? ==>
      && r.budgets[|r.budgets| - 1] <= 0
      && |r.budgets| == (if retries > 0 then retries else 0) + 1
      && forall j :: 0 <= j < retries ==> !Changed(pages[j], name, address)
    decreases |pages|
  {
    if retries <= 0 then RetryRun([retries], None)
    else if Changed(pages[0], name, address) then RetryRun([retries], Some(0))
    else
      var rest := Retry(pages[1..], name, address, retries - 1);
      var detected := match rest.detected
        case None => None
        case Some(k) => Some(k + 1);
      RetryRun([retries] + rest.budgets, detected)
  }

  /** The tracked state after a retry chain, how many attempts read the page,
      and whether its `updatePlaceInfo` threw. */
  datatype RetryStep = RetryStep(after: Tracked, attempts: nat, threw: bool)

  /** A retry chain started with the full budget: it reads the page at most
      `MaxRetries` times; every attempt before the last saw no change; the
      attempt that sees a change runs `updatePlaceInfo` once on what it
      read and the chain ends; a chain that never sees a change changes
      nothing. */
  function RetryEffect(t: Tracked, pages: seq<Page>): (r: RetryStep)
    requires MaxRetries <= |pages|
    ensures 1 <= r.attempts <= MaxRetries
    ensures forall j :: 0 <= j < r.attempts - 1 ==> !Changed(pages[j], t.name, t.address)
    ensures Changed(pages[r.attempts - 1], t.name, t.address) ==>
      Step(r.after, r.threw) == UpdateEffect(t, pages[r.attempts - 1])
    ensures !Changed(pages[r.attempts - 1], t.name, t.address) ==>
      r == RetryStep(t, MaxRetries, false)
  {
    var run := Retry(pages, t.name, t.address, MaxRetries);
    match run.detected
    case None => RetryStep(t, MaxRetries, false)
    case Some(k) =>
      var s := UpdateEffect(t, pages[k]);
      RetryStep(s.after, k + 1, s.threw)
  }

  /** A chain that never sees a change makes six calls, with budgets 5
      down to 0, and reads the page five times. */
  lemma ExhaustedChain(pages: seq<Page>, name: Option<string>, address: Option<string>)
    requires MaxRetries <= |pages|
    requires forall j :: 0 <= j < MaxRetries ==> !Changed(pages[j], name, address)
    ensures Retry(pages, name, address, MaxRetries) == RetryRun([5, 4, 3, 2, 1, 0], None)
  {
  }

  /** While nothing is stored yet (`currentPlaceName` is still null), the
      first attempt that finds both elements counts as a change: the chain
      stops there and updates from that read. */
  lemma FirstFindIsAChange(t: Tracked, pages: seq<Page>, k: nat)
    requires MaxRetries <= |pages| && t.name.None?
    requires k < MaxRetries && ElementsReady(pages[k])
    requires forall j :: 0 <= j < k ==> !ElementsReady(pages[j])
    ensures RetryEffect(t, pages).attempts == k + 1
    ensures Step(RetryEffect(t, pages).after, RetryEffect(t, pages).threw) == UpdateEffect(t, pages[k])
  {
  }

  /** After an update from a read with a truthy name and address, the same
      read is no longer a change, so a retry chain over an unchanged page
      runs out its budget. */
  lemma StoredReadIsNotAChange(t: Tracked, page: Page)
    requires t.panel.Some? && ElementsReady(page)
    requires Truthy(PlaceName(page)) && Truthy(PlaceAddress(page))
    ensures !Changed(page, UpdateEffect(t, page).after.name, UpdateEffect(t, page).after.address)
  {
  }

  /** An empty title is never stored but does differ from the stored name,
      so after the update the same read still counts as a change. */
  lemma EmptyTitleStaysAChange(t: Tracked, page: Page)
    requires t.panel.Some? && ElementsReady(page)
    requires PlaceName(page) == Some("") && t.name != Some("")
    ensures UpdateEffect(t, page).after.name == t.name
    ensures Changed(page, UpdateEffect(t, page).after.name, UpdateEffect(t, page).after.address)
  {
  }

  /** The observer path does not compare: running the update twice on the
      same read leaves the stored pair and the texts as after the first
      run, and sends the same score request a second time. */
  lemma RepeatedReadResends(t: Tracked, page: Page)
    requires t.panel.Some?
    requires Truthy(PlaceAddress(page)) && ',' in PlaceAddress(page).value
    ensures var once := UpdateEffect(t, page).after;
      var twice := UpdateEffect(once, page).after;
      && twice.name == once.name && twice.address == once.address
      && twice.panel == once.panel
      && |once.issued| == |t.issued| + 1
      && twice.issued == once.issued + [once.issued[|t.issued|]]
  {
  }

  /** The request carries the name as read, not the stored one: with no
      title element the query starts with the text "null". */
  lemma MissingTitleQueriesNull(t: Tracked, page: Page)
    requires t.panel.Some? && page.title.None?
    requires Truthy(PlaceAddress(page)) && ',' in PlaceAddress(page).value
    ensures var after := UpdateEffect(t, page).after;
      && |after.issued| == |t.issued| + 1
      && QueryText(after.issued[|t.issued|]) == "null " + City(PlaceAddress(page).value).value
  {
  }

  /** A listing titled "Cafe Luna" at "123 Main St, Springfield, USA" is
      stored as such and asks for the score of "Cafe Luna Springfield". */
  lemma ListingUpdate(t: Tracked)
    requires t.panel.Some?
    ensures var page := Page(Some("Cafe Luna"), Some(["Address: ", "123 Main St, Springfield, USA"]));
      var s := UpdateEffect(t, page);
      && !s.threw
      && s.after.name == Some("Cafe Luna")
      && s.after.address == Some("123 Main St, Springfield, USA")
      && |s.after.issued| == |t.issued| + 1
      && QueryText(s.after.issued[|t.issued|]) == "Cafe Luna Springfield"
  {
    var address := "123 Main St, Springfield, USA";
    var page := Page(Some("Cafe Luna"), Some(["Address: ", address]));
    assert PlaceName(page) == Some("Cafe Luna") && PlaceAddress(page) == Some(address);
    assert ',' in address by {
      assert address[11] == ',';
    }
    CityOfListing();
    var request := Request(Some("Cafe Luna"), "Springfield");
    ListingQuery();
    var s := UpdateEffect(t, page);
    assert s.after.issued[|t.issued|] == request;
  }

  /** An address without a comma is stored and shown, then the city
      expression throws: no request is sent and the score region is left
      as it was. */
  lemma AddressWithoutCommaThrows(t: Tracked, page: Page)
    requires t.panel.Some? && Truthy(PlaceAddress(page)) && ',' !in PlaceAddress(page).value
    ensures var s := UpdateEffect(t, page);
      && s.threw
      && s.after.address == PlaceAddress(page)
      && s.after.issued == t.issued && s.after.pending == t.pending
      && s.after.panel.value.score == t.panel.value.score
  {
  }
}
