# LinkedIn job crawler: the record pipeline, modelled in Dafny

This project models the pure record pipeline of the `LinkedInJobCrawler`
class in `linkedin_crawler.py` and proves properties of it. The pipeline
has five parts:

- **Card de-duplication** (`CardDedup`). Listing cards are de-duplicated by
  the `href` of their first `/jobs/view/` link before any field is read.
- **Ordered-fallback field extractor** (`Extraction`). Each of title,
  company, location, URL and posting date has a ranked list of selectors.
  The first selector whose element is usable wins. A link on the winning
  title element beats the dedicated URL selectors.
- **Keyword exclusion filter** (`Relevance`). `is_job_relevant` is a
  case-insensitive substring test against the excluded keywords.
- **Per-card validation and counting** (`Validation`). A card is rejected
  for missing data, masking (`*`), an irrelevant title or a missing URL.
  Location and date get defaults. Each rejection bumps one counter, except
  an irrelevant title, which bumps none.
- **Reconciliation** (`Reconciliation`). A scraped job is new when no stored
  job has its identity key (title, company, location). New jobs are marked
  `email_sent = False`. Stored jobs survive only inside the one-hour window.
  The saved list is the survivors followed by the new jobs.

`Crawler` composes them into one run over an already rendered page.

Abstractions:

- A card is a finite map from selector to element. An element has its
  already-stripped text and an optional `href`. A selector that matches
  nothing, or that would raise, has no entry. So the extractor's
  catch-and-continue around every selector becomes "no match".
- `select_one(sel)` is taken to be the first element of `select(sel)`. So the
  de-duplication key is the card's element at `a[href*="/jobs/view/"]`.
- A field absent from the extracted dict is `None` in `JobData`.
- Timestamps are whole seconds (`int`). The clock is a parameter: `stamp`
  for records scraped in one attempt, `now` for reconciliation.
- `email_sent` is an `Option<bool>`. `None` means the key is not set, as on a
  freshly scraped record.
- Lower-casing is ASCII only.

Two consequences of the code that a reader might not expect:

- `is_new_job` compares a scraped record only with the stored records, never
  with the other records of the same run (linkedin_crawler.py:199-207,
  520-524). So two same-key records found in one run, whose key is not
  stored, are both new and both saved (`Reconciliation.EveryJobNewWithoutHistory`,
  `Reconciliation.SameKeyTwiceInOneRunBothSaved`).
- A new record's key is absent from *every* stored record, so it is absent
  from the surviving ones too. Within one run, no new record shares a key
  with a retained record (`Reconciliation.NewNeverCollidesWithRetained`).
  Same-key duplicates therefore arise only among one run's new records.
  The retention filter does not de-duplicate, so once saved they are carried
  into later runs among the retained records until they leave the window.
- Newness is decided against every stored record, expired ones included,
  while only the stored records inside the window are kept
  (linkedin_crawler.py:199-207, 526-531). A job still listed on the page
  whose stored copy is more than an hour old is therefore neither new nor
  retained: nothing with its key is saved, and the next run reports it as
  new again (`Reconciliation.ExpiredButListedIsDropped`).

## Model

| member | source | states |
|---|---|---|
| Text.Lower | linkedin_crawler.py:211 | lower-casing keeps the length and maps each character to its ASCII lower-case form |
| Text.LowerIdempotent | linkedin_crawler.py:211-217 | lower-casing an already lower-cased string changes nothing |
| Text.LowerKeepsOccurrence | linkedin_crawler.py:211-217 | a keyword occurring in a title still occurs, at the same index, once both are lower-cased |
| Text.ContainsIff | linkedin_crawler.py:217 | the model of Python's `in` on strings holds exactly when the pattern occurs at some index; the empty pattern occurs everywhere |
| Relevance.AnyExcludedIff | linkedin_crawler.py:217 | the `any(...)` over the excluded keywords holds exactly when some keyword, lower-cased, is contained in the lower-cased title |
| Relevance.RelevantIff | linkedin_crawler.py:209-219 | a title is relevant exactly when no excluded keyword, lower-cased, occurs as a substring of the lower-cased title; the required-keyword part is constantly true |
| Relevance.RelevanceIgnoresCase | linkedin_crawler.py:211-217 | relevance of a title and of its lower-cased form agree |
| Relevance.EmptyKeywordExcludesAll | linkedin_crawler.py:217 | an empty string in the excluded list rejects every title |
| Relevance.DefaultKeywordRejects | linkedin_crawler.py:209-219 | under the default excluded list of the configuration (linkedin_crawler.py:39) ("5+ years", "4+ years", "manager", "director"), a title holding one of those keywords verbatim is not relevant |
| Relevance.PlainTitleExample | linkedin_crawler.py:209-219 | "Data Engineer" is relevant under the default excluded list: none of "5+ years", "4+ years", "manager", "director" occurs in it in any case |
| Relevance.KeywordAbsent | linkedin_crawler.py:217 | a keyword holding a non-upper-case character that the title lacks in both cases is not contained in the lower-cased title |
| Relevance.ExperienceBoundExample | linkedin_crawler.py:209-219 | "Senior Data Engineer (5+ years)" is not relevant under the default excluded list |
| Extraction.FirstHitFrom | linkedin_crawler.py:240-250 | scanning from a position returns the first selector at or after it whose element is usable, or reports that none is |
| Extraction.FirstHit | linkedin_crawler.py:240-250 | the selector loop yields the unique first usable selector in list order, and yields nothing exactly when no selector is usable |
| Extraction.FirstHitUnique | linkedin_crawler.py:248 | because the loop breaks at the first usable selector, there is only one winner |
| Extraction.FirstText | linkedin_crawler.py:265-272 | a text field is the text of the first selector whose element exists with non-empty text, and is absent when there is none |
| Extraction.FirstHref | linkedin_crawler.py:305-312 | the URL selectors yield the `href` of the first selector whose element has a non-empty `href`, whatever its text; absent when none |
| Extraction.Extract | linkedin_crawler.py:221-331 | title, company, location and date each follow first-match-wins over their own list; the URL is the winning title element's non-empty `href` when it has one, otherwise first-match-wins over the URL selectors; absent fields are `None`, and present title and URL are non-empty |
| Extraction.FirstHitIgnoresLaterSelectors | linkedin_crawler.py:240-250 | selectors after the winner are never consulted: any card agreeing up to the winner has the same winner |
| Extraction.FirstHitIsLocal | linkedin_crawler.py:265-272 | the winner depends only on what the card holds at the list's own selectors |
| Extraction.FieldsAreIndependent | linkedin_crawler.py:240-329 | two cards that agree on one text field's selectors extract the same value for that field, however their other fields differ |
| Extraction.FallbackOrderExample | linkedin_crawler.py:240-272 | a card matching only the third title selector and the first company selector neither element carrying a link, yields exactly those texts, and no URL |
| Validation.BuildJob | linkedin_crawler.py:455-463 | the record carries the given title and company, the extracted URL or the empty string when none was extracted, the extracted location or "Unknown Location", the extracted date or "Recent", source "LinkedIn", the attempt's time and no `email_sent`; the URL is empty exactly when none was extracted |
| Validation.Judge | linkedin_crawler.py:437-472 | each card gets exactly one verdict, checked in the order missing title or company, masked, irrelevant, missing URL; an accepted record carries the extracted title, company and URL with the defaults, and has non-empty title, company and URL, no `*` in title or company, a relevant title, source "LinkedIn" and no `email_sent` |
| Validation.MaskedExample | linkedin_crawler.py:446-449 | a title "Senior *** Engineer" is rejected as masked whatever the other fields hold, provided a company was extracted |
| Validation.CountsPartition | linkedin_crawler.py:428-472 | every card falls in exactly one of the five outcomes, so their counts add up to the number of cards |
| Validation.AcceptedJobsCount | linkedin_crawler.py:466-468 | one record is appended per accepted card |
| Validation.ProcessCards | linkedin_crawler.py:428-472 | the card loop appends exactly the accepted records in card order; each counter equals the number of cards with its outcome; `processed_count` equals the number appended; the four counters plus the irrelevant cards make up all cards; every appended record is acceptable, stamped with the attempt's time and unsent |
| CardDedup.KeepLinked | linkedin_crawler.py:411-413 | keeping a card whose link is non-empty and unseen, and recording that link, keeps the kept links non-empty, distinct and equal to the recorded set |
| CardDedup.KeepLinkless | linkedin_crawler.py:414-416 | keeping a card without a job link disturbs none of that |
| CardDedup.SurvivesIff | linkedin_crawler.py:409-416 | a card is kept exactly when it has no job link, or its first job link is non-empty and not yet recorded from an earlier card |
| CardDedup.DedupCards | linkedin_crawler.py:403-418 | the survivors, in input order, are exactly the cards with no job link plus the cards whose first job link is non-empty and was not the first job link of an earlier card; kept links are non-empty and pairwise distinct; every non-empty link of the input survives on some kept card |
| CardDedup.DedupShrinks | linkedin_crawler.py:403-418 | de-duplication never adds cards |
| Reconciliation.IsNewJob | linkedin_crawler.py:199-207 | a record is new exactly when no stored record has equal title, company and location, compared exactly |
| Reconciliation.MarkUnsent | linkedin_crawler.py:523 | marking sets `email_sent` to false and changes no other field, so the identity key is kept |
| Reconciliation.NewJobs | linkedin_crawler.py:520-524 | the new records are marked unsent, have keys absent from the stored records, each comes from a current record, every current record with an unstored key is among them, and there are no more of them than current records |
| Reconciliation.NewJobsIsFilter | linkedin_crawler.py:520-524 | the new records are exactly the current records whose key is unstored, each marked unsent, in scrape order and with their multiplicity |
| Reconciliation.NewJobsStep | linkedin_crawler.py:521-524 | one step of the new-job loop: the first current record is appended, marked, exactly when its key is unstored, ahead of the selection over the rest |
| Reconciliation.Retained | linkedin_crawler.py:527-531 | a stored record survives exactly when it was scraped no more than one hour before now, the bound inclusive |
| Reconciliation.RetainedIsFilter | linkedin_crawler.py:527-531 | the survivors are exactly the stored records inside the window, in stored order and with their multiplicity |
| Reconciliation.Reconcile | linkedin_crawler.py:520-532 | the new records are the current records with unstored keys, marked unsent, in scrape order; the saved list is the stored records inside the window, in stored order, followed by exactly those new records; no de-duplication is applied to the union |
| Reconciliation.NewNeverCollidesWithRetained | linkedin_crawler.py:520-532 | no new record shares an identity key with a surviving stored record |
| Reconciliation.EveryJobNewWithoutHistory | linkedin_crawler.py:520-524 | with no stored records every current record is new, duplicates of the current run included |
| Reconciliation.SameKeyTwiceInOneRunBothSaved | linkedin_crawler.py:520-532 | two distinct current records with the same unstored key both reach the saved list |
| Reconciliation.NothingNew | linkedin_crawler.py:520-524 | when every current record's key is stored, there are no new records |
| Reconciliation.AllRetained | linkedin_crawler.py:527-531 | when every stored record is inside the window, all survive in order |
| Reconciliation.RerunWithoutNewDataKeepsStore | linkedin_crawler.py:520-533 | a run that finds nothing new, over a store entirely inside the window, saves the store unchanged |
| Reconciliation.ExpiredButListedIsDropped | linkedin_crawler.py:520-532 | a listed job whose only stored copy with its key is outside the window is neither new nor retained, so the saved list holds nothing with its key and the job counts as new against it |
| Reconciliation.WindowBoundary | linkedin_crawler.py:527-531 | with `now` the clock rounded up to a whole second, a record stamped two hours before it is dropped; one stamped exactly one hour or thirty minutes before it is kept |
| Crawler.ScrapeAttempt | linkedin_crawler.py:403-472 | one attempt keeps exactly the accepted records of the cards that survive de-duplication, in page order, with fields extracted by first-match-wins; each counter equals the number of surviving cards with its outcome; the counters never exceed the number of cards found; every record is acceptable, stamped and unsent |
| Crawler.RunOnce | linkedin_crawler.py:511-533 | the new records are the attempt's accepted records whose keys are unstored, marked unsent, in page order; the saved list is the stored records inside the window followed by them; every new record is acceptable, stamped with this run's time, unsent and has an unstored key |

## Left out

- Browser automation is not modelled: driver setup, stealth options, scrolling, cookie clicking and page fetching (linkedin_crawler.py:75-177, 339-379). The page is given as its sequence of cards.
- Card collection over the card selectors is not modelled (linkedin_crawler.py:382-400). The concatenated card list is the input.
- Random delays and `time.sleep` are not modelled. They are randomness and waiting.
- The retry loop is not modelled (linkedin_crawler.py:339-509). Its control flow is driven by I/O failures and exceptions. `Crawler.ScrapeAttempt` is one attempt; the retry on an empty card list or zero valid jobs is not modelled.
- The per-card exception handler is not modelled (linkedin_crawler.py:474-476). In the model a lookup cannot raise.
- Config and database file handling is not modelled: `__init__`, `load_previous_jobs` and `save_jobs`. The stored records are an input and the saved list is an output. A stored record with a missing key would raise `KeyError` in the source; every stored record here has every field.
- The `"%Y-%m-%d %H:%M:%S"` formatting and parsing of timestamps is not modelled. Times are whole seconds. `now` stands for `datetime.now()` rounded up to a whole second: stored stamps are whole seconds (linkedin_crawler.py:462), and a whole-second stamp is at or after a clock reading minus one hour exactly when it is at or after that reading rounded up minus one hour, so the window comparison is exact under this reading. A malformed stored timestamp, which would raise in `strptime`, cannot occur.
- Validation.ProcessCards: all records of one attempt carry the same `stamp`, while the source reads the clock once per accepted card.
- CSS selector matching and `get_text(strip=True)` are not modelled. They are the HTML library's. Cards are abstract lookups holding stripped text.
- Text.Lower: lower-cases ASCII letters only. Python's `str.lower` also folds non-ASCII letters.
- The configured required keywords (`keywords`) are never consulted by `is_job_relevant`, so they do not appear.
- Printing, logging, `cleanup` and the `__main__` block are not modelled.
