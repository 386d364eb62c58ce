/** Per-card validation and counting: the body of the card loop of one
    scrape attempt, which turns extracted field mappings into job records. */
module Validation {
  import opened Wrappers
  import opened Records
  import opened Relevance

  const UnknownLocation: string := "Unknown Location"
  const Recent: string := "Recent"
  const LinkedIn: string := "LinkedIn"

  /** The character the site substitutes for data it hides. */
  const MaskChar: char := '*'

  /** How one card ends: exactly one of these per card. */
  datatype Outcome = MissingData | Masked | Irrelevant | NoUrl | Accepted(job: Job)

  /** Python truthiness of `job_data.get(field)`: present and non-empty. */
  predicate Present(v: Option<string>) {
    v.Some? && v.value != ""
  }

  /** What every record the scraper keeps satisfies. */
  ghost predicate Acceptable(job: Job, excluded: seq<string>) {
    && job.title != ""
    && job.company != ""
    && job.url != ""
    && MaskChar !in job.title
    && MaskChar !in job.company
    && IsJobRelevant(job.title, excluded)
    && job.source == LinkedIn
  }

  /** The record built from an extracted mapping once title and company have
      passed: the given title and company, the extracted URL or the empty
      string, location and date falling back to their defaults, source
      "LinkedIn", the attempt's time and no `email_sent` key. */
  function BuildJob(data: JobData, title: string, company: string, stamp: int): (job: Job)
    ensures data.location.None? ==> job.location == UnknownLocation
    ensures data.location.Some? ==> job.location == data.location.value
    ensures data.datePosted.None? ==> job.datePosted == Recent
    ensures data.datePosted.Some? ==> job.datePosted == data.datePosted.value
    ensures job.url == "" <==> !Present(data.url)
    ensures data.url.Some? ==> job.url == data.url.value
    ensures data.url.None? ==> job.url == ""
    ensures job.title == title && job.company == company
    ensures job.source == LinkedIn && job.scrapedDate == stamp && job.emailSent == None
  {
    Job(title := title,
        company := company,
        location := data.location.GetOr(UnknownLocation),
        datePosted := data.datePosted.GetOr(Recent),
        url := data.url.GetOr(""),
        source := LinkedIn,
        scrapedDate := stamp,
        emailSent := None)
  }

  /** The verdict on one extracted mapping: missing title or company first,
      then masking, then relevance, then a missing URL. */
  function Judge(data: JobData, excluded: seq<string>, stamp: int): (o: Outcome)
    ensures o.MissingData? <==> !Present(data.title) || !Present(data.company)
    ensures o.Masked? <==>
              && Present(data.title) && Present(data.company)
              && (MaskChar in data.title.value || MaskChar in data.company.value)
    ensures o.Irrelevant? <==>
              && Present(data.title) && Present(data.company)
              && MaskChar !in data.title.value && MaskChar !in data.company.value
              && !IsJobRelevant(data.title.value, excluded)
    ensures o.NoUrl? <==>
              && Present(data.title) && Present(data.company)
              && MaskChar !in data.title.value && MaskChar !in data.company.value
              && IsJobRelevant(data.title.value, excluded)
              && !Present(data.url)
    ensures o.Accepted? <==>
              && Present(data.title) && Present(data.company)
              && MaskChar !in data.title.value && MaskChar !in data.company.value
              && IsJobRelevant(data.title.value, excluded)
              && Present(data.url)
    ensures o.Accepted? ==> Acceptable(o.job, excluded) && o.job.scrapedDate == stamp && o.job.emailSent == None
    ensures o.Accepted? ==>
              && o.job.title == data.title.value
              && o.job.company == data.company.value
              && o.job.url == data.url.value
              && o.job.location == data.location.GetOr(UnknownLocation)
              && o.job.datePosted == data.datePosted.GetOr(Recent)
  {
    if !Present(data.title) || !Present(data.company) then MissingData
    else
      var title := data.title.value;
      var company := data.company.value;
      if MaskChar in title || MaskChar in company then Masked
      else if !IsJobRelevant(title, excluded) then Irrelevant
      else
        var job := BuildJob(data, title, company, stamp);
        if job.url != "" then Accepted(job) else NoUrl
  }

  /** A title with asterisks in it is rejected as masked, whatever else the card holds. */
  lemma MaskedExample(data: JobData, excluded: seq<string>, stamp: int)
    requires data.title == Some("Senior *** Engineer") && Present(data.company)
    ensures Judge(data, excluded, stamp) == Masked
  {
  }

  /** The verdicts on a sequence of extracted mappings, one per card, in order. */
  function Outcomes(datas: seq<JobData>, excluded: seq<string>, stamp: int): (os: seq<Outcome>)
    ensures |os| == |datas|
    ensures forall i :: 0 <= i < |datas| ==> os[i] == Judge(datas[i], excluded, stamp)
  {
    seq(|datas|, i requires 0 <= i < |datas| => Judge(datas[i], excluded, stamp))
  }

  datatype Kind = KMissingData | KMasked | KIrrelevant | KNoUrl | KAccepted

  function KindOf(o: Outcome): Kind {
    match o
    case MissingData => KMissingData
    case Masked => KMasked
    case Irrelevant => KIrrelevant
    case NoUrl => KNoUrl
    case Accepted(_) => KAccepted
  }

  /** How many outcomes of `os` are of kind `k`. */
  function Count(os: seq<Outcome>, k: Kind): nat
    decreases |os|
  {
    if os == [] then 0
    else Count(os[..|os| - 1], k) + (if KindOf(os[|os| - 1]) == k then 1 else 0)
  }

  /** The records of the accepted outcomes, in order. */
  function AcceptedJobs(os: seq<Outcome>): seq<Job>
    decreases |os|
  {
    if os == [] then []
    else AcceptedJobs(os[..|os| - 1]) + (if os[|os| - 1].Accepted? then [os[|os| - 1].job] else [])
  }

  /** Every outcome is of exactly one kind, so the five counts add up to the number of cards. */
  lemma {:induction false} CountsPartition(os: seq<Outcome>)
    ensures Count(os, KMissingData) + Count(os, KMasked) + Count(os, KIrrelevant)
              + Count(os, KNoUrl) + Count(os, KAccepted) == |os|
    decreases |os|
  {
    if os != [] {
      CountsPartition(os[..|os| - 1]);
    }
  }

  /** There is one accepted record per accepted outcome. */
  lemma {:induction false} AcceptedJobsCount(os: seq<Outcome>)
    ensures |AcceptedJobs(os)| == Count(os, KAccepted)
    decreases |os|
  {
    if os != [] {
      AcceptedJobsCount(os[..|os| - 1]);
    }
  }

  /** Extending a prefix of outcomes by one adds that outcome to its kind's
      count and, if it is accepted, its record to the accepted ones. */
  lemma PrefixStep(os: seq<Outcome>, i: nat)
    requires i < |os|
    ensures forall k :: Count(os[..i + 1], k) == Count(os[..i], k) + (if KindOf(os[i]) == k then 1 else 0)
    ensures AcceptedJobs(os[..i + 1]) == AcceptedJobs(os[..i]) + (if os[i].Accepted? then [os[i].job] else [])
  {
    assert os[..i + 1][..i] == os[..i];
  }

  /** The counters reported after the card loop. */
  datatype Counters = Counters(processed: nat, skippedMasked: nat, skippedMissingData: nat, skippedNoUrl: nat)

  /** The card loop of one scrape attempt, over the field mappings extracted
      from the de-duplicated cards (extraction is pure, so extracting every
      card first changes nothing). Each card bumps at most one counter (an
      irrelevant card bumps none), and `processed` is the number of records
      appended. */
  method ProcessCards(datas: seq<JobData>, excluded: seq<string>, stamp: int) returns (jobs: seq<Job>, counts: Counters)
    ensures jobs == AcceptedJobs(Outcomes(datas, excluded, stamp))
    ensures counts.processed == |jobs| == Count(Outcomes(datas, excluded, stamp), KAccepted)
    ensures counts.skippedMissingData == Count(Outcomes(datas, excluded, stamp), KMissingData)
    ensures counts.skippedMasked == Count(Outcomes(datas, excluded, stamp), KMasked)
    ensures counts.skippedNoUrl == Count(Outcomes(datas, excluded, stamp), KNoUrl)
    ensures counts.processed + counts.skippedMasked + counts.skippedMissingData + counts.skippedNoUrl
              + Count(Outcomes(datas, excluded, stamp), KIrrelevant) == |datas|
    ensures forall j :: j in jobs ==> Acceptable(j, excluded) && j.scrapedDate == stamp && j.emailSent == None
  {
    ghost var os := Outcomes(datas, excluded, stamp);
    jobs := [];
    var processed, masked, missing, noUrl := 0, 0, 0, 0;
    for i := 0 to |datas|
      invariant jobs == AcceptedJobs(os[..i])
      invariant processed == Count(os[..i], KAccepted)
      invariant missing == Count(os[..i], KMissingData)
      invariant masked == Count(os[..i], KMasked)
      invariant noUrl == Count(os[..i], KNoUrl)
      invariant forall j :: j in jobs ==> Acceptable(j, excluded) && j.scrapedDate == stamp && j.emailSent == None
    {
      PrefixStep(os, i);
      var data := datas[i];
      assert os[i] == Judge(data, excluded, stamp);
      if !Present(data.title) || !Present(data.company) {
        assert os[i].MissingData?;
        missing := missing + 1;
        continue;
      }
      var title := data.title.value;
      var company := data.company.value;
      if MaskChar in title || MaskChar in company {
        assert os[i].Masked?;
        masked := masked + 1;
        continue;
      }
      if !IsJobRelevant(title, excluded) {
        assert os[i].Irrelevant?;
        continue;
      }
      var job := BuildJob(data, title, company, stamp);
      if job.url != "" {
        assert os[i] == Accepted(job);
        jobs := jobs + [job];
        processed := processed + 1;
      } else {
        assert os[i].NoUrl?;
        noUrl := noUrl + 1;
      }
    }
    assert os[..|datas|] == os;
    AcceptedJobsCount(os);
    CountsPartition(os);
    counts := Counters(processed, masked, missing, noUrl);
  }
}
