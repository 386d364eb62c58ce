/** Reconciliation of one run: which scraped jobs are new, which previously
    stored jobs are still inside the retention window, and the list saved. */
module Reconciliation {
  import opened Wrappers
  import opened Records
  import Seqs

  /** One hour, in seconds. */
  const RetentionSeconds: int := 3600

  /** Two records denote the same real-world job: equal title, company and
      location, compared exactly (case-sensitive, no normalisation). */
  predicate SameKey(a: Job, b: Job) {
    a.title == b.title && a.company == b.company && a.location == b.location
  }

  /** `is_new_job`: no previous record has the same identity key. */
  function IsNewJob(job: Job, previous: seq<Job>): (b: bool)
    ensures b <==> forall p :: p in previous ==> !SameKey(job, p)
  {
    if previous == [] then true
    else if SameKey(job, previous[0]) then false
    else IsNewJob(job, previous[1..])
  }

  /** The record with `email_sent` set to false, every other field kept. */
  function MarkUnsent(job: Job): (j: Job)
    ensures SameKey(j, job) && j.emailSent == Some(false)
    ensures j.(emailSent := job.emailSent) == job
  {
    job.(emailSent := Some(false))
  }

  /** Each record of a list marked unsent, position by position. */
  function MarkAllUnsent(xs: seq<Job>): (r: seq<Job>)
    ensures |r| == |xs|
  {
    seq(|xs|, i requires 0 <= i < |xs| => MarkUnsent(xs[i]))
  }

  /** For each current record, whether its key is absent from the store. */
  function NewFlags(current: seq<Job>, previous: seq<Job>): (flags: seq<bool>)
    ensures |flags| == |current|
  {
    seq(|current|, i requires 0 <= i < |current| => IsNewJob(current[i], previous))
  }

  /** The new-job loop of `run_once`: every current record whose key is not
      among the previous records, marked unsent, in scrape order. Records of
      the current run are not compared with each other. */
  function NewJobs(current: seq<Job>, previous: seq<Job>): (r: seq<Job>)
    ensures |r| <= |current|
    ensures forall x :: x in r ==> x.emailSent == Some(false) && IsNewJob(x, previous)
    ensures forall x :: x in r ==> exists c :: c in current && x == MarkUnsent(c)
    ensures forall c :: c in current && IsNewJob(c, previous) ==> MarkUnsent(c) in r
  {
    if current == [] then []
    else
      var rest := NewJobs(current[1..], previous);
      assert forall c :: c in current[1..] ==> c in current;
      if IsNewJob(current[0], previous) then [MarkUnsent(current[0])] + rest else rest
  }

  /** The new records are exactly the current records flagged new, each
      marked unsent, in scrape order and with their multiplicity. */
  lemma {:induction false} NewJobsIsFilter(current: seq<Job>, previous: seq<Job>)
    ensures NewJobs(current, previous) == MarkAllUnsent(Seqs.FilterBy(current, NewFlags(current, previous)))
  {
    if current != [] {
      NewJobsIsFilter(current[1..], previous);
      NewJobsStep(current, previous, NewJobs(current[1..], previous));
    }
  }

  /** The selection of `NewJobs` read from the front: the first record's fate,
      then the selection over the rest. */
  lemma {:induction false} NewJobsStep(current: seq<Job>, previous: seq<Job>, rest: seq<Job>)
    requires current != []
    requires rest == MarkAllUnsent(Seqs.FilterBy(current[1..], NewFlags(current[1..], previous)))
    ensures MarkAllUnsent(Seqs.FilterBy(current, NewFlags(current, previous)))
         == (if IsNewJob(current[0], previous) then [MarkUnsent(current[0])] + rest else rest)
  {
    var flags := NewFlags(current, previous);
    Seqs.FilterByFront(current, flags);
    assert flags[1..] == NewFlags(current[1..], previous);
    var tail := Seqs.FilterBy(current[1..], flags[1..]);
    if flags[0] {
      assert MarkAllUnsent([current[0]] + tail) == [MarkUnsent(current[0])] + MarkAllUnsent(tail);
    } else {
      assert [] + tail == tail;
    }
  }

  /** A stored record is inside the retention window; the bound is inclusive. */
  predicate WithinWindow(job: Job, now: int) {
    job.scrapedDate >= now - RetentionSeconds
  }

  /** For each stored record, whether it is inside the window. */
  function WindowFlags(previous: seq<Job>, now: int): (flags: seq<bool>)
    ensures |flags| == |previous|
  {
    seq(|previous|, i requires 0 <= i < |previous| => WithinWindow(previous[i], now))
  }

  /** The previous records still inside the retention window, in stored order. */
  function Retained(previous: seq<Job>, now: int): (r: seq<Job>)
    ensures |r| <= |previous|
    ensures forall p :: p in r <==> p in previous && WithinWindow(p, now)
  {
    if previous == [] then []
    else
      var rest := Retained(previous[1..], now);
      if WithinWindow(previous[0], now) then [previous[0]] + rest else rest
  }

  /** The retained records are exactly the stored records flagged inside the
      window, in stored order and with their multiplicity. */
  lemma {:induction false} RetainedIsFilter(previous: seq<Job>, now: int)
    ensures Retained(previous, now) == Seqs.FilterBy(previous, WindowFlags(previous, now))
  {
    if previous != [] {
      RetainedIsFilter(previous[1..], now);
      var flags := WindowFlags(previous, now);
      Seqs.FilterByFront(previous, flags);
      assert flags[1..] == WindowFlags(previous[1..], now);
    }
  }

  /** What `run_once` produces: the list it saves and the new records it returns. */
  datatype RunResult = RunResult(saved: seq<Job>, newJobs: seq<Job>)

  /** The reconciliation of `run_once`: the saved list is the retained
      previous records followed by the new ones, with no further
      de-duplication. */
  function Reconcile(current: seq<Job>, previous: seq<Job>, now: int): (res: RunResult)
    ensures res.newJobs == NewJobs(current, previous)
    ensures res.newJobs == MarkAllUnsent(Seqs.FilterBy(current, NewFlags(current, previous)))
    ensures res.saved == Retained(previous, now) + res.newJobs
    ensures res.saved == Seqs.FilterBy(previous, WindowFlags(previous, now)) + res.newJobs
    ensures |res.saved| == |Retained(previous, now)| + |res.newJobs|
    ensures forall x :: x in res.saved <==> (x in previous && WithinWindow(x, now)) || x in res.newJobs
  {
    var found := NewJobs(current, previous);
    var saved := Retained(previous, now) + found;
    NewJobsIsFilter(current, previous);
    RetainedIsFilter(previous, now);
    assert forall x :: x in saved <==> x in Retained(previous, now) || x in found;
    RunResult(saved, found)
  }

  /** A new record never shares its key with a record kept from the previous
      store: within one run, same-key records in the saved list are either
      all new or all retained. */
  lemma NewNeverCollidesWithRetained(current: seq<Job>, previous: seq<Job>, now: int)
    ensures forall x, p :: x in NewJobs(current, previous) && p in Retained(previous, now) ==> !SameKey(x, p)
  {
  }

  /** When there are no previous records, every current record is new, even
      two that share a key: the check never looks at the current run itself. */
  lemma {:induction false} EveryJobNewWithoutHistory(current: seq<Job>)
    ensures |NewJobs(current, [])| == |current|
  {
    if current != [] {
      EveryJobNewWithoutHistory(current[1..]);
    }
  }

  /** Two current records with the same key that is absent from the previous
      records both reach the saved list. */
  lemma SameKeyTwiceInOneRunBothSaved(a: Job, b: Job, previous: seq<Job>, now: int)
    requires SameKey(a, b) && a != b
    requires a.emailSent == None && b.emailSent == None
    requires IsNewJob(a, previous)
    ensures MarkUnsent(a) in Reconcile([a, b], previous, now).saved
    ensures MarkUnsent(b) in Reconcile([a, b], previous, now).saved
    ensures MarkUnsent(a) != MarkUnsent(b)
  {
  }

  /** A re-run that finds nothing new, over a store entirely inside the
      window, saves the store unchanged. */
  lemma {:induction false} RerunWithoutNewDataKeepsStore(current: seq<Job>, previous: seq<Job>, now: int)
    requires forall c :: c in current ==> !IsNewJob(c, previous)
    requires forall p :: p in previous ==> WithinWindow(p, now)
    ensures Reconcile(current, previous, now).saved == previous
  {
    NothingNew(current, previous);
    AllRetained(previous, now);
  }

  lemma {:induction false} NothingNew(current: seq<Job>, previous: seq<Job>)
    requires forall c :: c in current ==> !IsNewJob(c, previous)
    ensures NewJobs(current, previous) == []
  {
    if current != [] {
      assert forall c :: c in current[1..] ==> c in current;
      NothingNew(current[1..], previous);
    }
  }

  lemma {:induction false} AllRetained(previous: seq<Job>, now: int)
    requires forall p :: p in previous ==> WithinWindow(p, now)
    ensures Retained(previous, now) == previous
  {
    if previous != [] {
      assert forall p :: p in previous[1..] ==> p in previous;
      AllRetained(previous[1..], now);
      assert [previous[0]] + previous[1..] == previous;
    }
  }

  /** A job still listed on the page whose stored copy has left the window is
      lost: its key is stored, so it is not new, and its stored copy is not
      retained. Nothing with its key is saved, so the next run finds it new again. */
  lemma ExpiredButListedIsDropped(stored: Job, listed: Job, now: int)
    requires SameKey(stored, listed) && !WithinWindow(stored, now)
    ensures Reconcile([listed], [stored], now).saved == []
    ensures IsNewJob(listed, Reconcile([listed], [stored], now).saved)
  {
  }

  /** The window boundary, with `now` the clock rounded up to a whole
      second: a record stamped two hours before it is dropped, one stamped
      exactly one hour or thirty minutes before it is kept. */
  lemma WindowBoundary(previous: seq<Job>, now: int, p: Job)
    requires p in previous
    ensures p.scrapedDate == now - 7200 ==> p !in Retained(previous, now)
    ensures p.scrapedDate == now - 3600 ==> p in Retained(previous, now)
    ensures p.scrapedDate == now - 1800 ==> p in Retained(previous, now)
  {
  }
}
