/** One run of the crawler over an already rendered page: card
    de-duplication, extraction and validation, then reconciliation with the
    previously stored records. */
module Crawler {
  import opened Wrappers
  import opened Records
  import opened Validation
  import opened Reconciliation
  import Seqs
  import CardDedup
  import Extraction

  /** The field mapping extracted from each card, in card order. */
  function ExtractAll(cards: seq<Card>): (datas: seq<JobData>)
    ensures |datas| == |cards|
  {
    seq(|cards|, i requires 0 <= i < |cards| => Extraction.Extract(cards[i]))
  }

  /** The verdicts one attempt reaches: one per card that survives
      de-duplication, in page order. */
  ghost function AttemptOutcomes(pageCards: seq<Card>, excluded: seq<string>, stamp: int): seq<Outcome> {
    Outcomes(ExtractAll(Seqs.FilterBy(pageCards, CardDedup.SurvivorFlags(pageCards))), excluded, stamp)
  }

  /** The records one attempt keeps: those of the accepted verdicts. */
  ghost function AttemptJobs(pageCards: seq<Card>, excluded: seq<string>, stamp: int): seq<Job> {
    AcceptedJobs(AttemptOutcomes(pageCards, excluded, stamp))
  }

  /** One scrape attempt over the cards found on the page. */
  method ScrapeAttempt(pageCards: seq<Card>, excluded: seq<string>, stamp: int) returns (jobs: seq<Job>, counts: Counters)
    ensures jobs == AttemptJobs(pageCards, excluded, stamp)
    ensures counts.processed == Count(AttemptOutcomes(pageCards, excluded, stamp), KAccepted)
    ensures counts.skippedMasked == Count(AttemptOutcomes(pageCards, excluded, stamp), KMasked)
    ensures counts.skippedMissingData == Count(AttemptOutcomes(pageCards, excluded, stamp), KMissingData)
    ensures counts.skippedNoUrl == Count(AttemptOutcomes(pageCards, excluded, stamp), KNoUrl)
    ensures counts.processed == |jobs|
    ensures counts.processed + counts.skippedMasked + counts.skippedMissingData + counts.skippedNoUrl <= |pageCards|
    ensures forall j :: j in jobs ==> Acceptable(j, excluded) && j.scrapedDate == stamp && j.emailSent == None
  {
    var unique := CardDedup.DedupCards(pageCards);
    CardDedup.DedupShrinks(pageCards);
    jobs, counts := ProcessCards(ExtractAll(unique), excluded, stamp);
  }

  /** `run_once` with the page, the stored records and the clock passed in:
      returns the list to save and the new records. Every saved record is a
      stored one still inside the window or a valid, unsent record of this
      run whose key was never stored. */
  method RunOnce(pageCards: seq<Card>, previous: seq<Job>, excluded: seq<string>, stamp: int, now: int)
    returns (saved: seq<Job>, newJobs: seq<Job>)
    ensures newJobs == NewJobs(AttemptJobs(pageCards, excluded, stamp), previous)
    ensures saved == Retained(previous, now) + newJobs
    ensures forall x :: x in saved ==> (x in previous && WithinWindow(x, now)) || x in newJobs
    ensures forall x :: x in newJobs ==>
              && Acceptable(x, excluded)
              && x.scrapedDate == stamp
              && x.emailSent == Some(false)
              && IsNewJob(x, previous)
  {
    var current, _ := ScrapeAttempt(pageCards, excluded, stamp);
    var res := Reconcile(current, previous, now);
    saved, newJobs := res.saved, res.newJobs;
  }
}
