/** The data the crawler works on: the page's listing cards, the partial
    field mapping extracted from one card, and the job record that is kept. */
module Records {
  import opened Wrappers

  /** A structural locator such as `h3.base-search-card__title a`. */
  type Selector = string

  /** What a selector finds inside a card: its whitespace-stripped text and
      its `href` attribute, if it has one. */
  datatype Element = Element(text: string, href: Option<string>)

  /** One listing card of the rendered page. The HTML library's `select_one`
      is abstracted to a finite lookup: a selector that finds nothing (or
      fails) has no entry. */
  datatype Card = Card(elements: map<Selector, Element>) {
    function Select(sel: Selector): Option<Element> {
      if sel in elements then Some(elements[sel]) else None
    }
  }

  /** The partial mapping built by the field extractor: a field that no
      selector produced is absent (None), never present and empty. */
  datatype JobData = JobData(
    title: Option<string>,
    company: Option<string>,
    location: Option<string>,
    url: Option<string>,
    datePosted: Option<string>)

  /** A job record as it is kept in the store. `scrapedDate` is a timestamp in
      whole seconds; `emailSent` is None until reconciliation sets it. */
  datatype Job = Job(
    title: string,
    company: string,
    location: string,
    datePosted: string,
    url: string,
    source: string,
    scrapedDate: int,
    emailSent: Option<bool>)
}
