/** The ordered-fallback field extractor: for every field a ranked list of
    selectors is tried against one card and the first usable hit wins. */
module Extraction {
  import opened Wrappers
  import opened Records

  const TitleSelectors: seq<Selector> := [
    "h3.base-search-card__title a",
    "h3.base-search-card__title",
    ".job-search-card__title a",
    ".job-search-card__title",
    "h3 a[data-tracking-control-name=\"public_jobs_jserp-result_search-card\"]",
    ".base-card__full-link",
    "a[data-tracking-control-name=\"public_jobs_jserp-result_search-card\"]",
    ".job-search-card .job-search-card__title",
    "h4.job-search-card__title",
    "h3.job-search-card__title",
    "a.job-search-card__title-link"
  ]

  const CompanySelectors: seq<Selector> := [
    "h4.base-search-card__subtitle",
    ".job-search-card__subtitle-link",
    ".base-search-card__subtitle a",
    "h4 a[data-tracking-control-name=\"public_jobs_jserp-result_job-search-card-subtitle\"]",
    ".job-search-card__subtitle",
    "h4.job-search-card__subtitle",
    ".base-search-card__subtitle",
    "a[data-tracking-control-name=\"public_jobs_jserp-result_job-search-card-subtitle\"]",
    ".job-search-card .job-search-card__subtitle"
  ]

  const LocationSelectors: seq<Selector> := [
    "span.job-search-card__location",
    ".base-search-card__metadata span",
    ".job-search-card__location",
    "span[data-tracking-control-name=\"public_jobs_jserp-result_job-search-card-location\"]"
  ]

  /** The link to a job's own page; also the key of card de-duplication. */
  const JobViewLink: Selector := "a[href*=\"/jobs/view/\"]"

  const UrlSelectors: seq<Selector> := [
    "a.base-card__full-link",
    ".base-search-card__title a",
    "h3 a",
    "a[data-tracking-control-name=\"public_jobs_jserp-result_search-card\"]",
    JobViewLink,
    ".job-search-card__title a",
    "a.job-search-card__title-link",
    ".job-search-card a[href*=\"/jobs/view/\"]",
    "a[data-entity-urn*=\"jobPosting\"]"
  ]

  const DateSelectors: seq<Selector> := [
    "time.job-search-card__listdate",
    "time",
    ".job-search-card__listdate--new",
    "span[data-tracking-control-name=\"public_jobs_jserp-result_job-search-card-date\"]"
  ]

  /** What makes a found element usable: non-empty text for the text fields,
      a non-empty `href` for the URL field. */
  datatype Probe = ByText | ByHref

  predicate HasHref(e: Element) {
    e.href.Some? && e.href.value != ""
  }

  predicate Hit(probe: Probe, found: Option<Element>) {
    match found
    case None => false
    case Some(e) =>
      match probe
      case ByText => e.text != ""
      case ByHref => HasHref(e)
  }

  /** Selector `i` is the first one in `sels` whose element is usable. */
  ghost predicate IsFirstHit(card: Card, sels: seq<Selector>, probe: Probe, i: int) {
    && 0 <= i < |sels|
    && Hit(probe, card.Select(sels[i]))
    && forall j :: 0 <= j < i ==> !Hit(probe, card.Select(sels[j]))
  }

  /** No selector of `sels` finds a usable element. */
  ghost predicate NoHit(card: Card, sels: seq<Selector>, probe: Probe) {
    forall j :: 0 <= j < |sels| ==> !Hit(probe, card.Select(sels[j]))
  }

  /** There is at most one first hit. */
  lemma FirstHitUnique(card: Card, sels: seq<Selector>, probe: Probe, i: int, k: int)
    requires IsFirstHit(card, sels, probe, i) && IsFirstHit(card, sels, probe, k)
    ensures i == k
  {
  }

  /** The index of the first usable selector at or after `k`. */
  function FirstHitFrom(card: Card, sels: seq<Selector>, probe: Probe, k: nat): (r: Option<nat>)
    requires k <= |sels|
    ensures r.Some? ==> k <= r.value < |sels| && Hit(probe, card.Select(sels[r.value]))
    ensures r.Some? ==> forall j :: k <= j < r.value ==> !Hit(probe, card.Select(sels[j]))
    ensures r.None? ==> forall j :: k <= j < |sels| ==> !Hit(probe, card.Select(sels[j]))
    decreases |sels| - k
  {
    if k == |sels| then None
    else if Hit(probe, card.Select(sels[k])) then Some(k)
    else FirstHitFrom(card, sels, probe, k + 1)
  }

  /** One selector loop of the extractor: it stops at the first usable selector. */
  function FirstHit(card: Card, sels: seq<Selector>, probe: Probe): (r: Option<nat>)
    ensures r.Some? ==> IsFirstHit(card, sels, probe, r.value)
    ensures r.None? <==> NoHit(card, sels, probe)
  {
    FirstHitFrom(card, sels, probe, 0)
  }

  /** `v` is what first-match-wins yields for a text field over `sels`. */
  ghost predicate FirstTextIs(card: Card, sels: seq<Selector>, v: Option<string>) {
    && (NoHit(card, sels, ByText) ==> v == None)
    && forall i :: IsFirstHit(card, sels, ByText, i) ==> v == Some(card.Select(sels[i]).value.text)
  }

  /** `v` is what first-match-wins yields for the URL selectors. */
  ghost predicate FirstHrefIs(card: Card, sels: seq<Selector>, v: Option<string>) {
    && (NoHit(card, sels, ByHref) ==> v == None)
    && forall i :: IsFirstHit(card, sels, ByHref, i) ==> v == card.Select(sels[i]).value.href
  }

  /** The winning title element carries a non-empty link. */
  ghost predicate TitleHasLink(card: Card) {
    exists i :: IsFirstHit(card, TitleSelectors, ByText, i) && HasHref(card.Select(TitleSelectors[i]).value)
  }

  function FirstText(card: Card, sels: seq<Selector>): (r: Option<string>)
    ensures FirstTextIs(card, sels, r)
  {
    match FirstHit(card, sels, ByText)
    case None => None
    case Some(i) => Some(card.Select(sels[i]).value.text)
  }

  function FirstHref(card: Card, sels: seq<Selector>): (r: Option<string>)
    ensures FirstHrefIs(card, sels, r)
  {
    match FirstHit(card, sels, ByHref)
    case None => None
    case Some(i) => card.Select(sels[i]).value.href
  }

  /** The link found on the winning title element, if it has a non-empty one. */
  function TitleLink(card: Card): Option<string> {
    match FirstHit(card, TitleSelectors, ByText)
    case None => None
    case Some(i) =>
      var e := card.Select(TitleSelectors[i]).value;
      if HasHref(e) then e.href else None
  }

  /** `extract_job_data_multiple_selectors`: each text field is the text of
      its first usable selector; the URL comes from the title element when
      that carries a link, and otherwise from the first URL selector whose
      element has a non-empty `href` (its text does not matter). */
  function Extract(card: Card): (d: JobData)
    ensures FirstTextIs(card, TitleSelectors, d.title)
    ensures FirstTextIs(card, CompanySelectors, d.company)
    ensures FirstTextIs(card, LocationSelectors, d.location)
    ensures FirstTextIs(card, DateSelectors, d.datePosted)
    ensures forall i :: IsFirstHit(card, TitleSelectors, ByText, i) && HasHref(card.Select(TitleSelectors[i]).value)
              ==> d.url == card.Select(TitleSelectors[i]).value.href
    ensures !TitleHasLink(card) ==> FirstHrefIs(card, UrlSelectors, d.url)
    ensures d.title.Some? ==> d.title.value != ""
    ensures d.url.Some? ==> d.url.value != ""
  {
    var titleLink := TitleLink(card);
    JobData(
      title := FirstText(card, TitleSelectors),
      company := FirstText(card, CompanySelectors),
      location := FirstText(card, LocationSelectors),
      url := if titleLink.Some? then titleLink else FirstHref(card, UrlSelectors),
      datePosted := FirstText(card, DateSelectors))
  }

  /** Selectors after the first hit are never consulted: a card that agrees
      with `card` up to and including the winning selector yields the same hit. */
  lemma FirstHitIgnoresLaterSelectors(card: Card, other: Card, sels: seq<Selector>, probe: Probe, i: int)
    requires IsFirstHit(card, sels, probe, i)
    requires forall j :: 0 <= j <= i ==> other.Select(sels[j]) == card.Select(sels[j])
    ensures FirstHit(other, sels, probe) == Some(i)
  {
  }

  /** A field's value depends only on what the card holds at that field's
      own selectors. */
  lemma FirstHitIsLocal(card: Card, other: Card, sels: seq<Selector>, probe: Probe)
    requires AgreeOn(card, other, sels)
    ensures FirstHit(other, sels, probe) == FirstHit(card, sels, probe)
  {
  }

  /** The card holds the same elements at every selector of `sels`. */
  ghost predicate AgreeOn(card: Card, other: Card, sels: seq<Selector>) {
    forall j :: 0 <= j < |sels| ==> other.Select(sels[j]) == card.Select(sels[j])
  }

  /** The four text fields of the extracted mapping, with their selector lists. */
  datatype TextField = Title | Company | Location | Date

  function SelectorsOf(f: TextField): seq<Selector> {
    match f
    case Title => TitleSelectors
    case Company => CompanySelectors
    case Location => LocationSelectors
    case Date => DateSelectors
  }

  function FieldOf(d: JobData, f: TextField): Option<string> {
    match f
    case Title => d.title
    case Company => d.company
    case Location => d.location
    case Date => d.datePosted
  }

  /** Fields are extracted independently of one another: two cards that agree
      on one field's selectors agree on that field, whatever else differs. */
  lemma FieldsAreIndependent(card: Card, other: Card, f: TextField)
    requires AgreeOn(card, other, SelectorsOf(f))
    ensures FieldOf(Extract(other), f) == FieldOf(Extract(card), f)
  {
    FirstHitIsLocal(card, other, SelectorsOf(f), ByText);
  }

  /** A card that matches only the third-ranked title selector and the
      first-ranked company selector yields that title and that company, and
      no URL. */
  lemma FallbackOrderExample(t: string, c: string)
    requires t != "" && c != ""
    ensures var card := Card(map[TitleSelectors[2] := Element(t, None), CompanySelectors[0] := Element(c, None)]);
      Extract(card).title == Some(t) && Extract(card).company == Some(c) && Extract(card).url == None
  {
    var card := Card(map[TitleSelectors[2] := Element(t, None), CompanySelectors[0] := Element(c, None)]);
    assert IsFirstHit(card, TitleSelectors, ByText, 2);
    assert IsFirstHit(card, CompanySelectors, ByText, 0);
    assert NoHit(card, UrlSelectors, ByHref);
  }
}
