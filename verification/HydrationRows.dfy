/** Rows of the full-crawl hydration: capture assessment, deduplication of crawled jobs, and
    the three ways a job gets its row (without a request, from a response, or by reuse of
    another job's response).

    Text, URL and native-id normalisation are parameters (`Texts`). SHA-256 is treated as
    injective, so a content hash is modelled by the text it is the hash of. */
module HydrationRows {
  import opened Wrappers
  import SqlSplit

  datatype Evidence = Evidence(status: string, identityVerified: bool, terminalObserved: bool,
                               remainingControls: bool, sourceUrl: string, captureMethod: string, content: string)

  /** `rest` stands for the fields that hydration only copies. */
  datatype Job = Job(jdRaw: Option<string>, evidence: Option<Evidence>, cohort: int, cohortStatus: string, rest: string)

  datatype Record = Record(key: string, job: Job, inputSha: string, entry: string,
                           duplicateCount: nat, duplicateSources: seq<string>)

  datatype Reason =
    | CaptureUnverified
    | CaptureIncomplete
    | IdentityUnverified
    | NotTerminated
    | SourceMissing
    | ContentChanged
    | CaptureComplete

  datatype Assessment = Assessment(complete: bool, reason: Reason)

  /** A detail response.  `companyBound` says that some part of it names the company, and
      `requestMade` what a fetcher that reuses pages notes about its request. */
  datatype Hydration = Hydration(status: string, identityStatus: string, detail: Option<string>,
                                 evidence: Option<Evidence>, nativeIds: seq<string>, titles: seq<string>,
                                 companyBound: bool, requestMade: Option<bool>)

  datatype Response =
    | FetchRaised(kind: string)
    | WorkerRaised(kind: string)
    | NotMapping
    | Returned(hydration: Hydration)

  /** `Pending` is the outcome of a record that has no row yet. */
  datatype Outcome = Pending | Complete | Hydrated | Failed | CohortUnconfirmed

  datatype Row = Row(key: string, inputSha: string, outcome: Outcome, hydration: Hydration, requestMade: bool,
                     job: Job, original: Assessment, assessment: Option<Assessment>, reusedFrom: Option<string>)

  /** Normalisation of the texts the rules compare. */
  datatype Texts = Texts(fold: string -> string, url: string -> string, idKey: string -> string,
                         jobUrl: Job -> string, nativeId: Job -> string, title: Job -> string)

  // ----- assessment -----

  /** Captured evidence must be complete, verified, terminated and match the stored detail. */
  function Assess(jdRaw: Option<string>, evidence: Option<Evidence>): (a: Assessment)
    ensures a.complete <==> a.reason == CaptureComplete
    ensures a.complete ==> jdRaw.Some? && evidence.Some? && evidence.value.content == SqlSplit.Strip(jdRaw.value)
  {
    var detail := if jdRaw.Some? then SqlSplit.Strip(jdRaw.value) else "";
    if evidence.None? then Assessment(false, CaptureUnverified)
    else
      var e := evidence.value;
      if e.status != "complete" then Assessment(false, CaptureIncomplete)
      else if !e.identityVerified then Assessment(false, IdentityUnverified)
      else if !e.terminalObserved || e.remainingControls then Assessment(false, NotTerminated)
      else if detail == "" || e.sourceUrl == "" || e.captureMethod == "" then Assessment(false, SourceMissing)
      else if e.content != detail then Assessment(false, ContentChanged)
      else Assessment(true, CaptureComplete)
  }

  /** A capture is complete iff its evidence is, and is about the very detail that is stored. */
  lemma AssessExactly(jdRaw: Option<string>, evidence: Option<Evidence>)
    ensures Assess(jdRaw, evidence).complete <==>
              && evidence.Some? && jdRaw.Some? && SqlSplit.Strip(jdRaw.value) != ""
              && var e := evidence.value;
              && e.status == "complete" && e.identityVerified && e.terminalObserved && !e.remainingControls
              && e.sourceUrl != "" && e.captureMethod != "" && e.content == SqlSplit.Strip(jdRaw.value)
  {
    hide SqlSplit.Strip;
  }

  function AssessJob(job: Job): Assessment {
    Assess(job.jdRaw, job.evidence)
  }

  predicate CohortConfirmed(t: Texts, job: Job) {
    job.cohort == 2027 && t.fold(job.cohortStatus) == "confirmed"
  }

  // ----- deduplication -----

  /** Confirmed cohort first, then a complete capture. */
  function Priority(t: Texts, r: Record): nat {
    (if CohortConfirmed(t, r.job) then 2 else 0) + (if AssessJob(r.job).complete then 1 else 0)
  }

  /** A confirmed 2027 cohort outranks any other; between equals, so does a complete capture. */
  lemma PriorityExactly(t: Texts, a: Record, b: Record)
    ensures var sure := (r: Record) => r.job.cohort == 2027 && t.fold(r.job.cohortStatus) == "confirmed";
            var whole := (r: Record) => Assess(r.job.jdRaw, r.job.evidence).complete;
            Priority(t, a) > Priority(t, b) <==>
              if sure(a) == sure(b) then whole(a) && !whole(b) else sure(a)
  {
    hide Assess;
  }

  /** The records with a key, in input order. */
  function Group(records: seq<Record>, key: string): (g: seq<Record>)
    ensures forall r | r in g :: r.key == key && r in records
  {
    if records == [] then []
    else
      var last := records[|records| - 1];
      Group(records[..|records| - 1], key) + if last.key == key then [last] else []
  }

  /** Keys in the order they are first seen. */
  function Order(records: seq<Record>): (keys: seq<string>)
    ensures forall r | r in records :: r.key in keys
    ensures forall k | k in keys :: exists r :: r in records && r.key == k
    ensures forall i, j | 0 <= i < j < |keys| :: keys[i] != keys[j]
  {
    if records == [] then []
    else
      var last := records[|records| - 1];
      var keys := Order(records[..|records| - 1]);
      assert records == records[..|records| - 1] + [last];
      if last.key in keys then keys else keys + [last.key]
  }

  /** `w` is the earliest record of `g` that no record of `g` outranks. */
  ghost predicate Wins(t: Texts, g: seq<Record>, w: Record) {
    exists i :: 0 <= i < |g| && g[i] == w
                && (forall j | 0 <= j < |g| :: Priority(t, g[j]) <= Priority(t, w))
                && (forall j | 0 <= j < i :: Priority(t, g[j]) < Priority(t, w))
  }

  function Entries(g: seq<Record>): seq<string> {
    seq(|g|, i requires 0 <= i < |g| => g[i].entry)
  }

  predicate Fresh(r: Record) {
    r.duplicateCount == 1 && r.duplicateSources == [r.entry]
  }

  /** What one group becomes: its winner, carrying the sources of the whole group in order. */
  ghost predicate Represents(t: Texts, g: seq<Record>, out: Record) {
    exists w :: Wins(t, g, w)
      && out == w.(duplicateCount := |g|, duplicateSources := Entries(g))
  }

  method Deduplicate(t: Texts, records: seq<Record>) returns (out: seq<Record>)
    requires forall i | 0 <= i < |records| :: Fresh(records[i])
    ensures |out| == |Order(records)|
    ensures forall i | 0 <= i < |out| ::
              out[i].key == Order(records)[i] && Represents(t, Group(records, out[i].key), out[i])
  {
    hide Represents, Group, Order, Priority, Entries, Kept;
    var grouped: map<string, Record>, order: seq<string> := map[], [];
    NothingGrouped(t, records);
    for n := 0 to |records|
      invariant Kept(t, records, n, order, grouped)
    {
      var incoming := records[n];
      var key := incoming.key;
      KeptKeys(t, records, n, order, grouped);
      if key !in grouped {
        KeptNew(t, records, n, order, grouped);
        grouped, order := grouped[key := incoming], order + [key];
      } else {
        var current := grouped[key];
        var sources := current.duplicateSources + [incoming.entry];
        var chosen := if Priority(t, incoming) > Priority(t, current) then incoming else current;
        KeptNext(t, records, n, order, grouped);
        grouped := grouped[key := chosen.(duplicateCount := |sources|, duplicateSources := sources)];
      }
    }
    KeptKeys(t, records, |records|, order, grouped);
    assert records[..|records|] == records;
    out := seq(|order|, i requires 0 <= i < |order| => grouped[order[i]]);
  }

  /** The table after the first `n` records. */
  ghost predicate Kept(t: Texts, records: seq<Record>, n: nat, order: seq<string>, grouped: map<string, Record>)
    requires n <= |records|
  {
    && order == Order(records[..n]) && (forall k :: k in grouped <==> k in order)
    && forall k | k in grouped :: grouped[k].key == k && Represents(t, Group(records[..n], k), grouped[k])
  }

  lemma KeptKeys(t: Texts, records: seq<Record>, n: nat, order: seq<string>, grouped: map<string, Record>)
    requires n <= |records| && Kept(t, records, n, order, grouped)
    ensures order == Order(records[..n]) && (forall k :: k in grouped <==> k in order)
    ensures forall k | k in grouped :: grouped[k].key == k && Represents(t, Group(records[..n], k), grouped[k])
  {
  }

  lemma OtherGroups(records: seq<Record>, n: nat)
    requires n < |records|
    ensures forall k: string | k != records[n].key :: Group(records[..n + 1], k) == Group(records[..n], k)
  {
    hide Group;
    forall k: string | k != records[n].key ensures Group(records[..n + 1], k) == Group(records[..n], k) {
      GroupNext(records, n, k);
    }
  }

  lemma KeptNew(t: Texts, records: seq<Record>, n: nat, order: seq<string>, grouped: map<string, Record>)
    requires n < |records| && Kept(t, records, n, order, grouped) && records[n].key !in grouped && Fresh(records[n])
    ensures Kept(t, records, n + 1, order + [records[n].key], grouped[records[n].key := records[n]])
  {
    hide Represents, Group, Order, Fresh;
    OrderNext(records, n);
    OtherGroups(records, n);
    GroupNext(records, n, records[n].key);
    GroupOfNew(records[..n], records[n].key);
    FirstRepresents(t, records[n]);
    KeptChanged(t, records, n, order, grouped, records[n], order + [records[n].key]);
  }

  /** Only the group of the record at hand changes. */
  lemma KeptChanged(t: Texts, records: seq<Record>, n: nat, order: seq<string>, grouped: map<string, Record>, r: Record,
                    order': seq<string>)
    requires n < |records| && Kept(t, records, n, order, grouped)
    requires order' == Order(records[..n + 1]) && (forall k :: k in order' <==> k in order || k == records[n].key)
    requires forall k: string | k != records[n].key :: Group(records[..n + 1], k) == Group(records[..n], k)
    requires r.key == records[n].key && Represents(t, Group(records[..n + 1], r.key), r)
    ensures Kept(t, records, n + 1, order', grouped[r.key := r])
  {
    hide Represents, Group, Order;
  }

  lemma KeptNext(t: Texts, records: seq<Record>, n: nat, order: seq<string>, grouped: map<string, Record>)
    requires n < |records| && Kept(t, records, n, order, grouped) && records[n].key in grouped
    ensures var incoming, current := records[n], grouped[records[n].key];
            var sources := current.duplicateSources + [incoming.entry];
            var chosen := if Priority(t, incoming) > Priority(t, current) then incoming else current;
            var next := chosen.(duplicateCount := |sources|, duplicateSources := sources);
            Kept(t, records, n + 1, order, grouped[incoming.key := next])
  {
    hide Represents, Group, Order, Priority;
    OrderNext(records, n);
    OtherGroups(records, n);
    GroupNext(records, n, records[n].key);
    var incoming, current := records[n], grouped[records[n].key];
    NextRepresents(t, Group(records[..n], incoming.key), current, incoming);
    var sources := current.duplicateSources + [incoming.entry];
    var chosen := if Priority(t, incoming) > Priority(t, current) then incoming else current;
    KeptChanged(t, records, n, order, grouped,
                chosen.(duplicateCount := |sources|, duplicateSources := sources), order);
  }

  lemma NothingGrouped(t: Texts, records: seq<Record>)
    ensures Kept(t, records, 0, [], map[])
  {
  }

  lemma OrderNext(records: seq<Record>, n: nat)
    requires n < |records|
    ensures var keys := Order(records[..n]);
            Order(records[..n + 1]) == if records[n].key in keys then keys else keys + [records[n].key]
  {
    assert records[..n + 1][..n] == records[..n];
  }

  lemma GroupNext(records: seq<Record>, n: nat, key: string)
    requires n < |records|
    ensures Group(records[..n + 1], key) ==
            Group(records[..n], key) + if records[n].key == key then [records[n]] else []
  {
    assert records[..n + 1][..n] == records[..n];
  }

  lemma {:induction false} GroupOfNew(records: seq<Record>, key: string)
    requires key !in Order(records)
    ensures Group(records, key) == []
  {
    if records != [] { GroupOfNew(records[..|records| - 1], key); }
  }

  lemma FirstRepresents(t: Texts, r: Record)
    requires Fresh(r)
    ensures Represents(t, [] + [r], r)
  {
    var g := [r];
    assert [] + [r] == g && g[0] == r;
    assert Wins(t, g, r);
    assert Entries(g) == [r.entry];
    assert r == r.(duplicateCount := |g|, duplicateSources := Entries(g));
  }

  lemma PriorityOfJob(t: Texts, a: Record, b: Record)
    requires a.job == b.job
    ensures Priority(t, a) == Priority(t, b)
  {
  }

  lemma NextRepresents(t: Texts, g: seq<Record>, current: Record, incoming: Record)
    requires Represents(t, g, current)
    ensures var chosen := if Priority(t, incoming) > Priority(t, current) then incoming else current;
            var sources := current.duplicateSources + [incoming.entry];
            Represents(t, g + [incoming], chosen.(duplicateCount := |sources|, duplicateSources := sources))
  {
    hide Priority, Entries, Wins;
    var w :| Wins(t, g, w) && current == w.(duplicateCount := |g|, duplicateSources := Entries(g));
    PriorityOfJob(t, current, w);
    WinsNext(t, g, w, incoming);
    EntriesNext(g, incoming);
    var best := if Priority(t, incoming) > Priority(t, w) then incoming else w;
    assert Wins(t, g + [incoming], best);
  }

  lemma WinsNext(t: Texts, g: seq<Record>, w: Record, incoming: Record)
    requires Wins(t, g, w)
    ensures Wins(t, g + [incoming], if Priority(t, incoming) > Priority(t, w) then incoming else w)
  {
    hide Priority;
    var i :| 0 <= i < |g| && g[i] == w
             && (forall j | 0 <= j < |g| :: Priority(t, g[j]) <= Priority(t, w))
             && (forall j | 0 <= j < i :: Priority(t, g[j]) < Priority(t, w));
    var h := g + [incoming];
    var best := if Priority(t, incoming) > Priority(t, w) then |g| else i;
    assert h[best] == if Priority(t, incoming) > Priority(t, w) then incoming else w;
    assert forall j | 0 <= j < |g| :: h[j] == g[j];
  }

  lemma EntriesNext(g: seq<Record>, r: Record)
    ensures Entries(g + [r]) == Entries(g) + [r.entry] && |Entries(g)| == |g|
  {
  }

  function DuplicateSum(out: seq<Record>): nat {
    if out == [] then 0 else DuplicateSum(out[..|out| - 1]) + out[|out| - 1].duplicateCount
  }

  function GroupSizes(records: seq<Record>, keys: seq<string>): nat {
    if keys == [] then 0 else GroupSizes(records, keys[..|keys| - 1]) + |Group(records, keys[|keys| - 1])|
  }

  lemma {:induction false} SumIsGroupSizes(records: seq<Record>, keys: seq<string>, out: seq<Record>)
    requires |out| == |keys| && forall i | 0 <= i < |out| :: out[i].duplicateCount == |Group(records, keys[i])|
    ensures DuplicateSum(out) == GroupSizes(records, keys)
  {
    if keys != [] { SumIsGroupSizes(records, keys[..|keys| - 1], out[..|out| - 1]); }
  }

  /** One more record is counted in the one group that has its key. */
  lemma {:induction false} GroupSizesNext(records: seq<Record>, r: Record, keys: seq<string>)
    requires forall i, j | 0 <= i < j < |keys| :: keys[i] != keys[j]
    ensures GroupSizes(records + [r], keys) == GroupSizes(records, keys) + if r.key in keys then 1 else 0
  {
    if keys != [] {
      assert (records + [r])[..|records|] == records;
      GroupSizesNext(records, r, keys[..|keys| - 1]);
      assert keys == keys[..|keys| - 1] + [keys[|keys| - 1]];
    }
  }

  lemma NoSizes()
    ensures GroupSizes([], Order([])) == 0
  {
  }

  lemma OneMoreGroup(records: seq<Record>, keys: seq<string>, key: string)
    ensures GroupSizes(records, keys + [key]) == GroupSizes(records, keys) + |Group(records, key)|
  {
    assert (keys + [key])[..|keys|] == keys;
  }

  lemma {:induction false} GroupSizesAll(records: seq<Record>)
    ensures GroupSizes(records, Order(records)) == |records|
  {
    hide Group, Order, GroupSizes;
    if records == [] {
      NoSizes();
    } else {
      var n := |records| - 1;
      var last, keys := records[n], Order(records[..n]);
      GroupSizesAll(records[..n]);
      assert records == records[..n] + [last] && records[..n + 1] == records;
      GroupSizesNext(records[..n], last, keys);
      OrderNext(records, n);
      if last.key !in keys {
        OneMoreGroup(records, keys, last.key);
        GroupOfNew(records[..n], last.key);
        GroupNext(records, n, last.key);
      }
    }
  }

  /** The duplicate counts of the kept records sum to the number of crawled ones. */
  lemma DuplicatesSumToInput(t: Texts, records: seq<Record>, out: seq<Record>)
    requires |out| == |Order(records)|
    requires forall i | 0 <= i < |out| ::
               out[i].key == Order(records)[i] && Represents(t, Group(records, out[i].key), out[i])
    ensures DuplicateSum(out) == |records|
  {
    SumIsGroupSizes(records, Order(records), out);
    GroupSizesAll(records);
  }

  // ----- rows -----

  /** A row takes over the hydrated detail and evidence only when it ends well. */
  function FinishRow(r: Record, h: Hydration, outcome: Outcome, attempted: bool,
                     assessment: Option<Assessment>, reusedFrom: Option<string>): Row
  {
    var job :=
      if outcome in {Complete, Hydrated} then
        r.job.(jdRaw := if h.detail.None? then r.job.jdRaw else h.detail,
               evidence := if h.evidence.None? then r.job.evidence else h.evidence)
      else r.job;
    Row(r.key, r.inputSha, outcome, h, attempted, job, AssessJob(r.job), assessment, reusedFrom)
  }

  function Plain(status: string, detail: Option<string>, evidence: Option<Evidence>): Hydration {
    Hydration(status, "", detail, evidence, [], [], false, None)
  }

  /** Jobs of an unconfirmed cohort and jobs already captured need no request. */
  function PrepareWithoutRequest(t: Texts, r: Record): Option<Row> {
    if !CohortConfirmed(t, r.job) then
      Some(FinishRow(r, Plain("skipped_cohort_unconfirmed", Some(""), None), CohortUnconfirmed, false, None, None))
    else if AssessJob(r.job).complete then
      var h := Plain("skipped_existing_complete", Some(if r.job.jdRaw.Some? then r.job.jdRaw.value else ""),
                     r.job.evidence);
      Some(FinishRow(r, h, Complete, false, Some(AssessJob(r.job)), None))
    else None
  }

  /** The row of a record from the response to its own request. */
  function HydrateRow(t: Texts, r: Record, response: Response): Row {
    match response
    case FetchRaised(_) => FinishRow(r, Plain("fetch_failed", Some(""), None), Failed, true, None, None)
    case WorkerRaised(_) => FinishRow(r, Plain("fetch_failed", Some(""), None), Failed, true, None, None)
    case NotMapping => FinishRow(r, Plain("invalid_response", Some(""), None), Failed, true, None, None)
    case Returned(h) =>
      var a := Assess(h.detail, h.evidence);
      var ok := t.fold(h.status) == "complete" && a.complete;
      FinishRow(r, h, if ok then Hydrated else Failed, h.requestMade != Some(false), Some(a), None)
  }

  /** A record is hydrated iff its response says complete and carries a complete capture; any
      other response fails it, and only one that says so made no request. */
  lemma HydratedExactly(t: Texts, r: Record, response: Response)
    ensures var row := HydrateRow(t, r, response);
            && row.outcome == (if response.Returned? && t.fold(response.hydration.status) == "complete"
                                  && Assess(response.hydration.detail, response.hydration.evidence).complete
                               then Hydrated else Failed)
            && row.requestMade == (response.Returned? ==> response.hydration.requestMade != Some(false))
            && row.reusedFrom == None
            && row.hydration ==
                 match response
                 case Returned(h) => h
                 case NotMapping => Hydration("invalid_response", "", Some(""), None, [], [], false, None)
                 case _ => Hydration("fetch_failed", "", Some(""), None, [], [], false, None)
  {
    hide Assess;
  }

  /** Exactly the records of a confirmed 2027 cohort without a complete capture need a request;
      any other keeps its job, and its row says why. */
  lemma PreparedExactly(t: Texts, r: Record)
    ensures var sure := r.job.cohort == 2027 && t.fold(r.job.cohortStatus) == "confirmed";
            var whole := Assess(r.job.jdRaw, r.job.evidence);
            match PrepareWithoutRequest(t, r)
            case None => sure && !whole.complete
            case Some(row) =>
              && row.job == r.job && !row.requestMade && row.reusedFrom == None
              && row.key == r.key && row.inputSha == r.inputSha && row.original == whole
              && (sure ==> whole.complete && row.outcome == Complete && row.assessment == Some(whole)
                           && row.hydration.status == "skipped_existing_complete"
                           && row.hydration.evidence == r.job.evidence)
              && (!sure ==> row.outcome == CohortUnconfirmed && row.assessment == None
                            && row.hydration.status == "skipped_cohort_unconfirmed")
  {
    AssessExactly(r.job.jdRaw, r.job.evidence);
    hide Assess;
  }

  /** One response proves the same official job for this record, without the company. */
  predicate Shareable(t: Texts, r: Record, h: Hydration) {
    && t.fold(h.status) == "complete"
    && t.fold(h.identityStatus) == "matched"
    && !h.companyBound
    && h.evidence.Some?
    && t.fold(h.evidence.value.captureMethod) == "official_api"
    && t.jobUrl(r.job) != "" && t.url(h.evidence.value.sourceUrl) == t.jobUrl(r.job)
    && t.nativeId(r.job) != "" && |h.nativeIds| == 1 && |h.titles| == 1
    && t.idKey(h.nativeIds[0]) == t.idKey(t.nativeId(r.job)) && h.titles[0] == t.title(r.job)
    && Assess(h.detail, h.evidence).complete
  }

  function ReuseRow(r: Record, representative: Record, h: Hydration): Row {
    FinishRow(r, h, Hydrated, false, Some(Assess(h.detail, h.evidence)), Some(representative.key))
  }

  /** Equal in everything but who made the request. */
  predicate SameHydration(a: Row, b: Row) {
    a == b.(requestMade := a.requestMade, reusedFrom := a.reusedFrom)
  }

  /** Reuse refines fetching: had the record made its own request and received the shared
      response, its row would differ only in the provenance of the request. */
  lemma ReuseRefinesFetch(t: Texts, waiter: Record, representative: Record, h: Hydration)
    requires Shareable(t, waiter, h)
    ensures SameHydration(ReuseRow(waiter, representative, h), HydrateRow(t, waiter, Returned(h)))
    ensures HydrateRow(t, waiter, Returned(h)).outcome == Hydrated
  {
  }

  /** The same for the row a waiter is given: whatever response its representative received, if
      that response may be shared for both, fetching it would have given the waiter this row. */
  lemma ReusedLikeFetched(t: Texts, waiter: Record, representative: Record, response: Response)
    requires var h := HydrateRow(t, representative, response).hydration;
             Shareable(t, representative, h) && Shareable(t, waiter, h)
    ensures var h := HydrateRow(t, representative, response).hydration;
            && response == Returned(h)
            && SameHydration(ReuseRow(waiter, representative, h), HydrateRow(t, waiter, response))
  {
    ReuseRefinesFetch(t, waiter, representative, HydrateRow(t, representative, response).hydration);
  }

  /** How a row of this run can come about. */
  ghost predicate Legit(t: Texts, r: Record, row: Row) {
    || PrepareWithoutRequest(t, r) == Some(row)
    || (PrepareWithoutRequest(t, r) == None
        && ((exists response :: row == HydrateRow(t, r, response))
            || (exists representative, h :: Shareable(t, r, h) && row == ReuseRow(r, representative, h))))
  }

  /** Whatever the responses, a row that claims a hydrated or complete detail carries a
      detail whose evidence is complete against that very job; every other row leaves the
      job as it was crawled; and a job already complete is never replaced. */
  lemma LegitRowsAreSound(t: Texts, r: Record, row: Row)
    requires Legit(t, r, row)
    ensures row.key == r.key && row.inputSha == r.inputSha && row.outcome != Pending
    ensures row.outcome == Hydrated ==>
              && t.fold(row.hydration.status) == "complete"
              && r.job.cohort == 2027 && t.fold(r.job.cohortStatus) == "confirmed"
              && row.job == r.job.(jdRaw := row.hydration.detail, evidence := row.hydration.evidence)
              && row.assessment == Some(AssessJob(row.job))
    ensures row.outcome in {Complete, Hydrated} <==> row.outcome != CohortUnconfirmed && AssessJob(row.job).complete
    ensures row.outcome != Hydrated ==> row.job == r.job
    ensures row.outcome == CohortUnconfirmed <==>
              !(r.job.cohort == 2027 && t.fold(r.job.cohortStatus) == "confirmed")
    ensures row.outcome == Complete <==> row.outcome != CohortUnconfirmed && AssessJob(r.job).complete
    ensures row.outcome in {Complete, CohortUnconfirmed} ==> !row.requestMade
  {
    if PrepareWithoutRequest(t, r) == None {
      if response :| row == HydrateRow(t, r, response) {
      } else {
        var representative, h :| Shareable(t, r, h) && row == ReuseRow(r, representative, h);
      }
    }
  }
}
