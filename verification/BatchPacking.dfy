/** Packing frozen jobs into review batches: a job is excluded when it is assigned elsewhere
    or its analysis can be reused, the others are packed in order under two limits. */
module BatchPacking {
  import opened Wrappers

  datatype Job = Job(id: string, content: string, fingerprint: string)

  datatype Status = AlreadyAssigned | AlreadyReusable

  datatype Excluded = Excluded(id: string, status: Status)

  datatype Error = BadLimits | ProfileMismatch | DuplicateId | JobMismatch

  /** The two batch limits and the length of a job as it is written into its batch. */
  datatype Limits = Limits(maxJobs: int, maxCharacters: int, size: Job -> nat)

  function Size(limits: Limits, batch: seq<Job>): nat {
    if batch == [] then 0 else Size(limits, batch[..|batch| - 1]) + limits.size(batch[|batch| - 1])
  }

  /** Within both limits; a single job may exceed the character limit. */
  predicate Fits(limits: Limits, batch: seq<Job>) {
    |batch| <= limits.maxJobs && (Size(limits, batch) <= limits.maxCharacters || |batch| <= 1)
  }

  function Flatten(batches: seq<seq<Job>>): seq<Job> {
    if batches == [] then [] else batches[0] + Flatten(batches[1..])
  }

  /** A division of some jobs into non-empty batches within the limits. */
  predicate Division(limits: Limits, batches: seq<seq<Job>>) {
    forall k | 0 <= k < |batches| :: batches[k] != [] && Fits(limits, batches[k])
  }

  predicate NoRoom(limits: Limits, batch: seq<Job>, next: seq<Job>) {
    next != [] && !Fits(limits, batch + [next[0]])
  }

  /** No batch has room for the first job of the next one. */
  ghost predicate Greedy(limits: Limits, batches: seq<seq<Job>>) {
    forall j, k | 0 <= j < k < |batches| && k == j + 1 :: NoRoom(limits, batches[j], batches[k])
  }

  lemma {:induction false} SizeConcat(limits: Limits, a: seq<Job>, b: seq<Job>)
    ensures Size(limits, a + b) == Size(limits, a) + Size(limits, b)
  {
    if b == [] {
      assert a + b == a;
    } else {
      assert (a + b)[..|a + b| - 1] == a + b[..|b| - 1];
      SizeConcat(limits, a, b[..|b| - 1]);
    }
  }

  lemma PartFits(limits: Limits, a: seq<Job>, b: seq<Job>, c: seq<Job>)
    requires Fits(limits, a + b + c)
    ensures Fits(limits, b)
  {
    SizeConcat(limits, a + b, c);
    SizeConcat(limits, a, b);
  }

  lemma {:induction false} FlattenAppend(batches: seq<seq<Job>>, batch: seq<Job>)
    ensures Flatten(batches + [batch]) == Flatten(batches) + batch
  {
    if batches == [] {
      assert batches + [batch] == [batch];
      assert [batch][1..] == [];
    } else {
      assert (batches + [batch])[1..] == batches[1..] + [batch];
      FlattenAppend(batches[1..], batch);
    }
  }

  /** A batch within the limits cannot hold a full greedy batch and the job after it. */
  lemma FirstNoLonger(limits: Limits, d: seq<Job>, extra: seq<Job>, g: seq<Job>, next: seq<Job>, after: seq<Job>)
    requires Fits(limits, d) && NoRoom(limits, g, next)
    requires d <= extra + g + next + after
    ensures |d| <= |extra| + |g|
  {
    hide Fits;
    var all := extra + g + next + after;
    if |d| > |extra| + |g| {
      var n := |extra| + |g| + 1;
      assert d == all[..|d|];
      assert d[..n] == extra + (g + [next[0]]);
      assert d == extra + (g + [next[0]]) + d[n..];
      PartFits(limits, extra, g + [next[0]], d[n..]);
    }
  }

  lemma {:induction false} DivisionLength(limits: Limits, batches: seq<seq<Job>>)
    requires Division(limits, batches)
    ensures batches != [] ==> Flatten(batches) != []
  {
  }

  /** A greedy division is no longer than any division within the limits, even of more jobs:
      `extra` are jobs the other division has in front. */
  lemma {:induction false} GreedyIsShortest(limits: Limits, greedy: seq<seq<Job>>, other: seq<seq<Job>>,
                                            extra: seq<Job>)
    requires Division(limits, greedy) && Greedy(limits, greedy) && Division(limits, other)
    requires Flatten(other) == extra + Flatten(greedy)
    ensures |greedy| <= |other|
  {
    hide Fits, NoRoom;
    DivisionLength(limits, greedy);
    if |greedy| > 1 {
      var g, next, d := greedy[0], greedy[1], other[0];
      var after := Flatten(greedy[1..][1..]);
      assert Flatten(greedy[1..]) == next + after;
      assert extra + Flatten(greedy) == extra + g + next + after;
      assert d + Flatten(other[1..]) == extra + g + next + after;
      FirstNoLonger(limits, d, extra, g, next, after);
      var left := (extra + g)[|d|..];
      assert Flatten(other[1..]) == (d + Flatten(other[1..]))[|d|..];
      assert (extra + g + next + after)[|d|..] == left + (next + after);
      GreedyIsShortest(limits, greedy[1..], other[1..], left);
    }
  }

  /** The jobs to pack, in order. */
  function Eligible(jobs: seq<Job>, taken: set<string>, reusable: Job -> bool): seq<Job> {
    if jobs == [] then []
    else
      var last := jobs[|jobs| - 1];
      Eligible(jobs[..|jobs| - 1], taken, reusable)
      + if last.id !in taken && !reusable(last) then [last] else []
  }

  /** The excluded ones, in order, each with its reason. */
  function Rejected(jobs: seq<Job>, taken: set<string>, reusable: Job -> bool): seq<Excluded> {
    if jobs == [] then []
    else
      var last := jobs[|jobs| - 1];
      Rejected(jobs[..|jobs| - 1], taken, reusable)
      + if last.id in taken then [Excluded(last.id, AlreadyAssigned)]
        else if reusable(last) then [Excluded(last.id, AlreadyReusable)] else []
  }

  /** A job is packed iff it is assigned nowhere else and cannot be reused; else it is excluded,
      for the first of these reasons that holds. */
  lemma {:induction false} ScreenedExactly(jobs: seq<Job>, taken: set<string>, reusable: Job -> bool)
    ensures forall job :: job in Eligible(jobs, taken, reusable) <==>
              job in jobs && job.id !in taken && !reusable(job)
    ensures forall x :: x in Rejected(jobs, taken, reusable) <==>
              exists job | job in jobs :: x.id == job.id &&
                if job.id in taken then x.status == AlreadyAssigned else reusable(job) && x.status == AlreadyReusable
  {
    if jobs != [] {
      var n := |jobs| - 1;
      ScreenedExactly(jobs[..n], taken, reusable);
      assert jobs == jobs[..n] + [jobs[n]];
    }
  }

  /** Both lists keep the order of the jobs. */
  lemma {:induction false} ScreenedInOrder(a: seq<Job>, b: seq<Job>, taken: set<string>, reusable: Job -> bool)
    ensures Eligible(a + b, taken, reusable) == Eligible(a, taken, reusable) + Eligible(b, taken, reusable)
    ensures Rejected(a + b, taken, reusable) == Rejected(a, taken, reusable) + Rejected(b, taken, reusable)
  {
    if b == [] {
      assert a + b == a;
    } else {
      assert (a + b)[..|a + b| - 1] == a + b[..|b| - 1];
      ScreenedInOrder(a, b[..|b| - 1], taken, reusable);
    }
  }

  predicate UniqueIds(jobs: seq<Job>) {
    forall i, j | 0 <= i < j < |jobs| :: jobs[i].id != jobs[j].id
  }

  function Ids(jobs: seq<Job>): seq<string> {
    seq(|jobs|, i requires 0 <= i < |jobs| => jobs[i].id)
  }

  function RejectedIds(excluded: seq<Excluded>): seq<string> {
    seq(|excluded|, i requires 0 <= i < |excluded| => excluded[i].id)
  }

  lemma IdsNext(jobs: seq<Job>, job: Job)
    ensures Ids(jobs + [job]) == Ids(jobs) + [job.id]
  {
  }

  lemma RejectedIdsNext(excluded: seq<Excluded>, x: Excluded)
    ensures RejectedIds(excluded + [x]) == RejectedIds(excluded) + [x.id]
  {
  }

  lemma NoIds()
    ensures Ids([]) == [] && RejectedIds([]) == []
  {
  }

  /** Every frozen job is either packed or excluded, once. */
  lemma {:induction false} EveryJobOnce(jobs: seq<Job>, taken: set<string>, reusable: Job -> bool)
    ensures multiset(Ids(jobs)) ==
            multiset(Ids(Eligible(jobs, taken, reusable))) + multiset(RejectedIds(Rejected(jobs, taken, reusable)))
  {
    hide Ids, RejectedIds;
    if jobs == [] {
      NoIds();
    } else {
      var n := |jobs| - 1;
      var job := jobs[n];
      EveryJobOnce(jobs[..n], taken, reusable);
      var e, r := Eligible(jobs[..n], taken, reusable), Rejected(jobs[..n], taken, reusable);
      assert jobs == jobs[..n] + [job];
      IdsNext(jobs[..n], job);
      if job.id in taken {
        RejectedIdsNext(r, Excluded(job.id, AlreadyAssigned));
        assert e + [] == e;
      } else if reusable(job) {
        RejectedIdsNext(r, Excluded(job.id, AlreadyReusable));
        assert e + [] == e;
      } else {
        IdsNext(e, job);
        assert r + [] == r;
      }
    }
  }

  /** The first job that stops the preparation, and why: its id was seen before, or else it no
      longer matches its fingerprint. */
  ghost predicate Stops(jobs: seq<Job>, fingerprint: Job -> string, n: nat, error: Error) {
    && n < |jobs| && UniqueIds(jobs[..n]) && (forall k | 0 <= k < n :: fingerprint(jobs[k]) == jobs[k].fingerprint)
    && if exists k :: 0 <= k < n && jobs[k].id == jobs[n].id then error == DuplicateId
       else fingerprint(jobs[n]) != jobs[n].fingerprint && error == JobMismatch
  }

  /** The exclusion pass.  A repeated id or a job that no longer matches its fingerprint stops
      the preparation. */
  method Screen(jobs: seq<Job>, fingerprint: Job -> string, taken: set<string>, reusable: Job -> bool)
    returns (r: Result<(seq<Job>, seq<Excluded>), Error>)
    ensures r.Ok? <==> UniqueIds(jobs) && forall i | 0 <= i < |jobs| :: fingerprint(jobs[i]) == jobs[i].fingerprint
    ensures r.Ok? ==> r.value == (Eligible(jobs, taken, reusable), Rejected(jobs, taken, reusable))
    ensures r.Err? ==> exists n :: Stops(jobs, fingerprint, n, r.error)
  {
    var eligible: seq<Job>, excluded: seq<Excluded>, seen: set<string> := [], [], {};
    for i := 0 to |jobs|
      invariant UniqueIds(jobs[..i]) && forall k | 0 <= k < i :: fingerprint(jobs[k]) == jobs[k].fingerprint
      invariant seen == set k | 0 <= k < i :: jobs[k].id
      invariant eligible == Eligible(jobs[..i], taken, reusable)
      invariant excluded == Rejected(jobs[..i], taken, reusable)
    {
      var job := jobs[i];
      assert jobs[..i + 1][..i] == jobs[..i];
      if job.id in seen {
        assert Stops(jobs, fingerprint, i, DuplicateId);
        return Err(DuplicateId);
      }
      assert forall k | 0 <= k < i :: jobs[k].id != job.id;
      seen := seen + {job.id};
      if fingerprint(job) != job.fingerprint {
        assert Stops(jobs, fingerprint, i, JobMismatch);
        return Err(JobMismatch);
      }
      if job.id in taken {
        excluded := excluded + [Excluded(job.id, AlreadyAssigned)];
      } else if reusable(job) {
        excluded := excluded + [Excluded(job.id, AlreadyReusable)];
      } else {
        eligible := eligible + [job];
      }
    }
    assert jobs[..|jobs|] == jobs;
    return Ok((eligible, excluded));
  }

  /** The packing pass. */
  method Pack(limits: Limits, eligible: seq<Job>) returns (batches: seq<seq<Job>>)
    requires limits.maxJobs >= 1 && limits.maxCharacters >= 1
    ensures Flatten(batches) == eligible && Division(limits, batches) && Greedy(limits, batches)
    ensures forall k | 0 <= k < |batches| ::
              && 1 <= |batches[k]| <= limits.maxJobs
              && (|batches[k]| == 1 || Size(limits, batches[k]) <= limits.maxCharacters)
    ensures forall j, k | 0 <= j && k == j + 1 < |batches| ::
              || |batches[j]| == limits.maxJobs
              || Size(limits, batches[j]) + limits.size(batches[k][0]) > limits.maxCharacters
  {
    hide Flatten, Size;
    batches := [];
    var batch: seq<Job>, size := [], 0;
    NothingPacked(limits);
    for i := 0 to |eligible|
      invariant Flatten(batches) + batch == eligible[..i]
      invariant size == Size(limits, batch) && Fits(limits, batch)
      invariant Division(limits, batches) && Greedy(limits, batches)
      invariant batch == [] ==> batches == []
      invariant batch != [] && batches != [] ==> NoRoom(limits, batches[|batches| - 1], batch)
    {
      var job := eligible[i];
      var itemSize := limits.size(job);
      SizeNext(limits, batch, job);
      SizeNext(limits, [], job);
      assert [] + [job] == [job];
      if batch != [] && (|batch| >= limits.maxJobs || size + itemSize > limits.maxCharacters) {
        assert NoRoom(limits, batch, [job]);
        FlattenAppend(batches, batch);
        batches := batches + [batch];
        batch, size := [], 0;
      }
      batch := batch + [job];
      size := size + itemSize;
    }
    assert eligible[..|eligible|] == eligible;
    if batch != [] {
      FlattenAppend(batches, batch);
      batches := batches + [batch];
    }
    GreedyExactly(limits, batches);
  }

  /** A batch is closed only because it is full or the next job would make it too long. */
  lemma GreedyExactly(limits: Limits, batches: seq<seq<Job>>)
    requires limits.maxJobs >= 1 && Division(limits, batches) && Greedy(limits, batches)
    ensures forall j, k | 0 <= j && k == j + 1 < |batches| ::
              || |batches[j]| == limits.maxJobs
              || Size(limits, batches[j]) + limits.size(batches[k][0]) > limits.maxCharacters
  {
    hide Size;
    forall j, k | 0 <= j && k == j + 1 < |batches|
      ensures |batches[j]| == limits.maxJobs
              || Size(limits, batches[j]) + limits.size(batches[k][0]) > limits.maxCharacters
    {
      assert NoRoom(limits, batches[j], batches[k]);
      SizeNext(limits, batches[j], batches[k][0]);
    }
  }

  lemma NothingPacked(limits: Limits)
    ensures Flatten([]) == [] && Size(limits, []) == 0
  {
  }

  lemma SizeNext(limits: Limits, batch: seq<Job>, job: Job)
    ensures Size(limits, batch + [job]) == Size(limits, batch) + limits.size(job)
  {
    assert (batch + [job])[..|batch|] == batch;
  }

  /** Preparation as a whole: every job is packed in order or excluded, within the limits, and
      no division of the packed jobs within the limits has fewer batches. */
  method Prepare(limits: Limits, jobs: seq<Job>, profileMatches: bool, fingerprint: Job -> string,
                 taken: set<string>, reusable: Job -> bool)
    returns (r: Result<(seq<seq<Job>>, seq<Excluded>), Error>)
    ensures r.Ok? <==>
              && limits.maxJobs >= 1 && limits.maxCharacters >= 1 && profileMatches && UniqueIds(jobs)
              && forall i | 0 <= i < |jobs| :: fingerprint(jobs[i]) == jobs[i].fingerprint
    ensures r.Err? ==>
              if limits.maxJobs < 1 || limits.maxCharacters < 1 then r.error == BadLimits
              else if !profileMatches then r.error == ProfileMismatch
              else exists n :: Stops(jobs, fingerprint, n, r.error)
    ensures r.Ok? ==>
              && Flatten(r.value.0) == Eligible(jobs, taken, reusable)
              && r.value.1 == Rejected(jobs, taken, reusable)
              && Division(limits, r.value.0)
              && forall other | Division(limits, other) && Flatten(other) == Flatten(r.value.0) ::
                  |r.value.0| <= |other|
  {
    if limits.maxJobs < 1 || limits.maxCharacters < 1 { return Err(BadLimits); }
    if !profileMatches { return Err(ProfileMismatch); }
    var screened := Screen(jobs, fingerprint, taken, reusable);
    if screened.Err? { return Err(screened.error); }
    var batches := Pack(limits, screened.value.0);
    forall other | Division(limits, other) && Flatten(other) == Flatten(batches) ensures |batches| <= |other| {
      assert Flatten(other) == [] + Flatten(batches);
      GreedyIsShortest(limits, batches, other, []);
    }
    return Ok((batches, screened.value.1));
  }
}
