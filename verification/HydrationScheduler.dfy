/** The hydration run: a bounded worker pool over a queue of records, with waiters that hope
    to reuse the response of a representative, incremental counters, and one checkpoint per
    record from which an interrupted run resumes.

    Records are named by their position.  Responses, completion order and the number of
    completions handled per wake-up are arbitrary.  `trail` is the history of what was on
    disk after each checkpoint write; a crash leaves one of its entries. */
module HydrationScheduler {
  import opened Wrappers
  import opened HydrationRows

  type Rows = map<string, Row>

  /** Where a record is. */
  datatype Place = Finished | Flying | Queued | Waiting(representative: nat)

  ghost predicate DistinctKeys(records: seq<Record>) {
    forall i, j | 0 <= i < j < |records| :: records[i].key != records[j].key
  }

  function OutcomeOf(results: Rows, r: Record): Outcome {
    if r.key in results then results[r.key].outcome else Pending
  }

  // ----- counters -----

  /** Records whose outcome is `o`, by a full recount. */
  function Tally(records: seq<Record>, results: Rows, o: Outcome): nat {
    if records == [] then 0
    else Tally(records[..|records| - 1], results, o) + if OutcomeOf(results, records[|records| - 1]) == o then 1 else 0
  }

  /** Records whose row came from a request, by a full recount. */
  function Attempted(records: seq<Record>, results: Rows): nat {
    if records == [] then 0
    else
      var key := records[|records| - 1].key;
      Attempted(records[..|records| - 1], results) + if key in results && results[key].requestMade then 1 else 0
  }

  /** A counter that never holds a zero, equal to the recount. */
  ghost predicate Counts(records: seq<Record>, results: Rows, counts: map<Outcome, nat>) {
    forall o: Outcome ::
      && (o in counts <==> Tally(records, results, o) > 0)
      && (o in counts ==> counts[o] == Tally(records, results, o))
  }

  method ResultCounts(records: seq<Record>, results: Rows) returns (counts: map<Outcome, nat>, attempted: nat)
    ensures Counts(records, results, counts) && attempted == Attempted(records, results)
  {
    counts, attempted := map[], 0;
    for i := 0 to |records|
      invariant Counts(records[..i], results, counts) && attempted == Attempted(records[..i], results)
    {
      assert records[..i + 1][..i] == records[..i];
      var r := records[i];
      var o := OutcomeOf(results, r);
      counts := counts[o := (if o in counts then counts[o] else 0) + 1];
      attempted := attempted + if r.key in results && results[r.key].requestMade then 1 else 0;
    }
    assert records[..|records|] == records;
  }

  lemma {:induction false} TallyUnaffected(records: seq<Record>, results: Rows, key: string, row: Row, o: Outcome)
    requires forall i | 0 <= i < |records| :: records[i].key != key
    ensures Tally(records, results[key := row], o) == Tally(records, results, o)
    ensures Attempted(records, results[key := row]) == Attempted(records, results)
  {
    if records != [] { TallyUnaffected(records[..|records| - 1], results, key, row, o); }
  }

  /** Storing a row moves its record from its previous outcome to the row's. */
  lemma {:induction false} TallyAfterStore(records: seq<Record>, results: Rows, i: nat, row: Row, o: Outcome)
    requires DistinctKeys(records) && i < |records|
    ensures var key := records[i].key;
            && Tally(records, results[key := row], o) ==
                 Tally(records, results, o) - (if OutcomeOf(results, records[i]) == o then 1 else 0)
                                            + (if row.outcome == o then 1 else 0)
            && Attempted(records, results[key := row]) ==
                 Attempted(records, results) - (if key in results && results[key].requestMade then 1 else 0)
                                             + (if row.requestMade then 1 else 0)
  {
    var n := |records| - 1;
    if i == n {
      TallyUnaffected(records[..n], results, records[i].key, row, o);
    } else {
      TallyAfterStore(records[..n], results, i, row, o);
    }
  }

  /** The counts cover all records, and nothing is pending exactly when every record has a
      terminal outcome: the summary's `stage_complete`. */
  lemma {:induction false} TalliesCoverRecords(records: seq<Record>, results: Rows)
    ensures Tally(records, results, Pending) + Tally(records, results, Complete) + Tally(records, results, Hydrated)
            + Tally(records, results, Failed) + Tally(records, results, CohortUnconfirmed) == |records|
    ensures Tally(records, results, Pending) == 0
       <==> forall i | 0 <= i < |records| :: OutcomeOf(results, records[i]) != Pending
  {
    if records != [] {
      var n := |records| - 1;
      TalliesCoverRecords(records[..n], results);
      assert forall i | 0 <= i < n :: records[..n][i] == records[i];
    }
  }

  /** The incremental update: the record leaves its previous outcome, a counter that reaches
      zero is dropped, and the row's outcome is counted; for any previous outcome. */
  method MoveCounters(records: seq<Record>, results: Rows, counts: map<Outcome, nat>, attempted: nat, i: nat, row: Row)
    returns (counts': map<Outcome, nat>, attempted': nat)
    requires DistinctKeys(records) && i < |records|
    requires Counts(records, results, counts) && attempted == Attempted(records, results)
    ensures Counts(records, results[records[i].key := row], counts')
    ensures attempted' == Attempted(records, results[records[i].key := row])
  {
    hide Tally, Attempted;
    var key, previous := records[i].key, OutcomeOf(results, records[i]);
    forall o: Outcome
      ensures Tally(records, results[key := row], o) ==
              Tally(records, results, o) - (if previous == o then 1 else 0) + (if row.outcome == o then 1 else 0)
    {
      TallyAfterStore(records, results, i, row, o);
    }
    TallyAfterStore(records, results, i, row, Pending);
    PreviousCounted(records, results, i);
    counts' := counts[previous := counts[previous] - 1];
    if counts'[previous] <= 0 { counts' := counts' - {previous}; }
    var before := attempted - if key in results && results[key].requestMade then 1 else 0;
    counts' := counts'[row.outcome := (if row.outcome in counts' then counts'[row.outcome] else 0) + 1];
    attempted' := before + if row.requestMade then 1 else 0;
  }

  // ----- grouping -----

  /** The pending records of a group, in order. */
  function Members(pending: seq<nat>, group: nat -> Option<string>, g: string): (m: seq<nat>)
    ensures forall i | i in m :: i in pending && group(i) == Some(g)
    ensures forall i | i in pending && group(i) == Some(g) :: i in m
  {
    if pending == [] then []
    else
      var last := pending[|pending| - 1];
      assert pending == pending[..|pending| - 1] + [last];
      Members(pending[..|pending| - 1], group, g) + if group(last) == Some(g) then [last] else []
  }

  lemma {:induction false} MembersUnique(pending: seq<nat>, group: nat -> Option<string>, g: string)
    requires Unique(pending)
    ensures Unique(Members(pending, group, g))
  {
    if pending != [] {
      var n := |pending| - 1;
      MembersUnique(pending[..n], group, g);
      assert pending[n] !in pending[..n];
    }
  }

  /** The record whose response the group of `i` waits for; itself when it waits for nobody. */
  function Leader(pending: seq<nat>, group: nat -> Option<string>, i: nat): (l: nat)
    requires i in pending
    ensures l in pending
  {
    if group(i) == None then i else Members(pending, group, group(i).value)[0]
  }

  /** A record of a group waits for the first pending one of it. */
  lemma LeaderIsFirst(pending: seq<nat>, group: nat -> Option<string>, i: nat) returns (k: nat)
    requires i in pending && group(i) != None
    ensures k < |pending| && pending[k] == Leader(pending, group, i) && group(pending[k]) == group(i)
    ensures forall j | 0 <= j < k :: group(pending[j]) != group(i)
  {
    k := FirstMember(pending, group, group(i).value);
  }

  lemma {:induction false} FirstMember(pending: seq<nat>, group: nat -> Option<string>, g: string) returns (k: nat)
    requires Members(pending, group, g) != []
    ensures k < |pending| && pending[k] == Members(pending, group, g)[0]
    ensures forall j | 0 <= j < k :: group(pending[j]) != Some(g)
  {
    var n := |pending| - 1;
    if Members(pending[..n], group, g) != [] {
      k := FirstMember(pending[..n], group, g);
    } else {
      k := n;
      assert forall j | 0 <= j < n :: pending[j] in pending[..n];
    }
  }

  ghost predicate Unique(s: seq<nat>) {
    forall i, j | 0 <= i < j < |s| :: s[i] != s[j]
  }

  predicate InOrder(s: seq<nat>) {
    forall i, j | 0 <= i < j < |s| :: s[i] < s[j]
  }

  method PendingRecords(records: seq<Record>, results: Rows) returns (pending: seq<nat>)
    ensures IsPending(records, results, pending) && InOrder(pending)
  {
    pending := [];
    for i := 0 to |records|
      invariant Unique(pending) && InOrder(pending) && forall k | 0 <= k < |pending| :: pending[k] < i
      invariant forall k: nat :: k in pending <==> k < i && records[k].key !in results
    {
      if records[i].key !in results {
        Pushed(pending, i);
        pending := pending + [i];
      }
    }
  }

  /** Leaders are queued; each leader of a larger group has the other members waiting. */
  ghost predicate GroupedAs(pending: seq<nat>, group: nat -> Option<string>, queue: seq<nat>,
                            waiters: map<nat, seq<nat>>) {
    && Unique(queue) && (forall i: nat :: i in queue <==> i in pending && Leader(pending, group, i) == i)
    && (forall i | i in pending && Leader(pending, group, i) != i :: Leader(pending, group, i) in waiters)
    && (forall l | l in waiters ::
          l in pending && group(l).Some?
          && var m := Members(pending, group, group(l).value); m != [] && m[0] == l && waiters[l] == m[1..])
  }

  ghost predicate IsPending(records: seq<Record>, results: Rows, pending: seq<nat>) {
    Unique(pending) && forall k: nat :: k in pending <==> k < |records| && records[k].key !in results
  }

  /** The members of every group, in order. */
  method GroupMembers(pending: seq<nat>, group: nat -> Option<string>) returns (members: map<string, seq<nat>>)
    ensures forall g | g in members :: members[g] == Members(pending, group, g)
    ensures forall g: string :: g !in members ==> Members(pending, group, g) == []
  {
    hide Members;
    members := map[];
    NoMembers(group);
    for n := 0 to |pending|
      invariant forall g | g in members :: members[g] == Members(pending[..n], group, g)
      invariant forall g: string :: g !in members ==> Members(pending[..n], group, g) == []
    {
      var i := pending[n];
      forall g: string
        ensures Members(pending[..n + 1], group, g) ==
                Members(pending[..n], group, g) + if group(i) == Some(g) then [i] else []
      {
        MembersNext(pending, group, g, n);
      }
      if group(i).Some? {
        var g := group(i).value;
        members := members[g := (if g in members then members[g] else []) + [i]];
      }
    }
    assert pending[..|pending|] == pending;
  }

  /** Queues one record per group and every record without a group; the other members of a
      group wait for its first one. */
  method Grouped(pending: seq<nat>, group: nat -> Option<string>) returns (queue: seq<nat>, waiters: map<nat, seq<nat>>)
    requires Unique(pending)
    ensures GroupedAs(pending, group, queue, waiters)
  {
    hide Unique, Members;
    var groupMembers := GroupMembers(pending, group);
    queue, waiters := [], map[];
    assert Unique(queue) by { EmptyUnique(); }
    for n := 0 to |pending|
      invariant Unique(queue) && forall i: nat :: i in queue <==> i in pending[..n] && Leader(pending, group, i) == i
      invariant forall i | i in pending[..n] && Leader(pending, group, i) != i :: Leader(pending, group, i) in waiters
      invariant forall l | l in waiters ::
                  l in pending && group(l).Some?
                  && var m := Members(pending, group, group(l).value); m != [] && m[0] == l && waiters[l] == m[1..]
    {
      var i := pending[n];
      assert pending[..n + 1] == pending[..n] + [i];
      assert i !in queue by { assert i !in pending[..n] by { FirstTime(pending, n); } }
      Pushed(queue, i);
      if group(i) == None {
        queue := queue + [i];
      } else {
        var members := groupMembers[group(i).value];
        if |members| == 1 || i == members[0] {
          queue := queue + [i];
        } else if members[0] !in waiters {
          waiters := waiters[members[0] := members[1..]];
        }
      }
    }
    assert pending[..|pending|] == pending;
  }

  lemma NoMembers(group: nat -> Option<string>)
    ensures forall g: string :: Members([], group, g) == []
  {
  }

  lemma EmptyUnique()
    ensures Unique([])
  {
  }

  lemma MembersNext(pending: seq<nat>, group: nat -> Option<string>, g: string, n: nat)
    requires n < |pending|
    ensures Members(pending[..n + 1], group, g) ==
            Members(pending[..n], group, g) + if group(pending[n]) == Some(g) then [pending[n]] else []
  {
    assert pending[..n + 1][..n] == pending[..n];
  }

  lemma FirstTime(s: seq<nat>, n: nat)
    requires Unique(s) && n < |s|
    ensures s[n] !in s[..n]
  {
  }

  // ----- where the records are -----

  /** Each record is queued, in flight, finished, or waiting for a representative that is
      itself queued or in flight.  `orphans` are the waiters of `left`, which has just left
      the pool. */
  ghost predicate Located(n: nat, place: seq<Place>, queue: seq<nat>, waiters: map<nat, seq<nat>>,
                          inFlight: seq<nat>, orphans: seq<nat>, left: nat)
  {
    && |place| == n
    && Unique(queue) && (forall i: nat :: i in queue <==> i < n && place[i] == Queued)
    && Unique(inFlight) && (forall i: nat :: i in inFlight <==> i < n && place[i] == Flying)
    && (forall l | l in waiters ::
          && l < n && place[l] in {Queued, Flying} && Unique(waiters[l])
          && forall i | i in waiters[l] :: i < n && place[i] == Waiting(l))
    && Unique(orphans) && (forall i | i in orphans :: i < n && place[i] == Waiting(left))
    && (orphans != [] ==> left < n && place[left] == Finished)
    && (forall i | 0 <= i < n && place[i].Waiting? ::
          var l := place[i].representative; (l in waiters && i in waiters[l]) || i in orphans)
  }

  ghost predicate Settled(records: seq<Record>, results: Rows, place: seq<Place>) {
    |place| == |records| && forall i | 0 <= i < |records| :: records[i].key in results <==> place[i] == Finished
  }

  ghost function InitialPlaces(records: seq<Record>, results: Rows, pending: seq<nat>,
                               group: nat -> Option<string>): seq<Place> {
    seq(|records|, i requires 0 <= i < |records| =>
      if records[i].key in results then Finished
      else if i in pending && Leader(pending, group, i) != i then Waiting(Leader(pending, group, i))
      else Queued)
  }

  /** Grouping leaves every pending record queued or waiting for a queued one. */
  lemma InitiallyLocated(records: seq<Record>, results: Rows, pending: seq<nat>, group: nat -> Option<string>,
                         queue: seq<nat>, waiters: map<nat, seq<nat>>)
    requires IsPending(records, results, pending)
    requires GroupedAs(pending, group, queue, waiters)
    ensures var place := InitialPlaces(records, results, pending, group);
            && Settled(records, results, place) && Located(|records|, place, queue, waiters, [], [], 0)
            && |place| == |records| && forall i | 0 <= i < |records| && place[i] != Finished ::
                records[i].key !in results
  {
    hide Members, Leader, Unique;
    EmptyUnique();
    var place := InitialPlaces(records, results, pending, group);
    forall l | l in waiters
      ensures l < |records| && place[l] == Queued && Unique(waiters[l])
      ensures forall i | i in waiters[l] :: i < |records| && place[i] == Waiting(l)
    {
      GroupOf(pending, group, l, group(l).value);
    }
    forall i | 0 <= i < |records| && place[i].Waiting?
      ensures place[i].representative in waiters && i in waiters[place[i].representative]
    {
      LeaderWaitedFor(pending, group, i);
      GroupOf(pending, group, Leader(pending, group, i), group(i).value);
    }
  }

  /** The group led by `l`: the others, in order, each with `l` as its leader. */
  lemma GroupOf(pending: seq<nat>, group: nat -> Option<string>, l: nat, g: string)
    requires Unique(pending) && l in pending && group(l) == Some(g)
    ensures var m := Members(pending, group, g);
            && m != [] && m[0] in pending && group(m[0]) == Some(g) && Leader(pending, group, l) == m[0]
            && Unique(m[1..])
            && forall i: nat :: i in m[1..] <==> i in pending && group(i) == Some(g) && i != m[0]
    ensures forall i | i in pending && group(i) == Some(g) :: Leader(pending, group, i) == Leader(pending, group, l)
  {
    var m := Members(pending, group, g);
    assert l in m;
    assert m[0] in m;
    MembersUnique(pending, group, g);
    Popped(m);
  }

  lemma LeaderWaitedFor(pending: seq<nat>, group: nat -> Option<string>, i: nat)
    requires Unique(pending) && i in pending && Leader(pending, group, i) != i
    ensures var l := Leader(pending, group, i); group(i).Some? && l in pending && group(l) == group(i)
  {
    GroupOf(pending, group, i, group(i).value);
  }

  lemma Popped(s: seq<nat>)
    requires Unique(s) && s != []
    ensures Unique(s[1..]) && forall k: nat :: k in s[1..] <==> k in s && k != s[0]
  {
    assert s == [s[0]] + s[1..];
  }

  lemma Pushed(s: seq<nat>, i: nat)
    requires Unique(s) && i !in s
    ensures Unique(s + [i]) && forall k: nat :: k in s + [i] <==> k in s || k == i
  {
  }

  lemma SubmitLocated(n: nat, place: seq<Place>, queue: seq<nat>, waiters: map<nat, seq<nat>>, inFlight: seq<nat>)
    requires Located(n, place, queue, waiters, inFlight, [], 0) && queue != []
    ensures var i := queue[0];
            i < n == |place| && place[i] == Queued
            && Located(n, place[i := Flying], queue[1..], waiters, inFlight + [i], [], 0)
  {
    assert queue[0] in queue;
    Popped(queue);
    Pushed(inFlight, queue[0]);
  }

  lemma LandLocated(n: nat, place: seq<Place>, queue: seq<nat>, waiters: map<nat, seq<nat>>, inFlight: seq<nat>, j: nat)
    requires Located(n, place, queue, waiters, inFlight, [], 0) && j < |inFlight|
    ensures var i := inFlight[j];
            i < n && place[i] == Flying
            && Located(n, place[i := Finished], queue, waiters - {i}, inFlight[..j] + inFlight[j + 1..],
                       if i in waiters then waiters[i] else [], i)
  {
    assert inFlight[j] in inFlight;
    RemoveAt(inFlight, j);
  }

  /** The next orphan goes to the end of the queue, or is finished at once. */
  lemma OrphanLocated(n: nat, place: seq<Place>, queue: seq<nat>, waiters: map<nat, seq<nat>>, inFlight: seq<nat>,
                      orphans: seq<nat>, left: nat)
    requires Located(n, place, queue, waiters, inFlight, orphans, left) && orphans != []
    ensures var i := orphans[0];
            i < n && place[i] == Waiting(left)
            && Located(n, place[i := Queued], queue + [i], waiters, inFlight, orphans[1..], left)
            && Located(n, place[i := Finished], queue, waiters, inFlight, orphans[1..], left)
  {
    assert orphans[0] in orphans;
    Popped(orphans);
    Pushed(queue, orphans[0]);
  }

  // ----- checkpoints -----

  /** Every row on disk for one of the records is one that a run can produce for it. */
  ghost predicate LegitDisk(t: Texts, records: seq<Record>, disk: Rows) {
    forall i | 0 <= i < |records| && records[i].key in disk :: Legit(t, records[i], disk[records[i].key])
  }

  ghost predicate Keeps(disk: Rows, disk': Rows) {
    forall k | k in disk :: k in disk' && disk'[k] == disk[k]
  }

  /** Memory agrees with disk, disk holds legitimate rows, and it has only grown. */
  ghost predicate DurableRows(t: Texts, records: seq<Record>, results: Rows, disk: Rows, trail: seq<Rows>) {
    && DistinctKeys(records) && LegitDisk(t, records, disk) && Keeps(results, disk)
    && (forall i | 0 <= i < |records| :: records[i].key in disk <==> records[i].key in results)
    && trail != [] && trail[|trail| - 1] == disk
    && forall i, j | 0 <= i <= j < |trail| :: Keeps(trail[i], trail[j])
  }

  /** Nothing that is not finished was on disk at any time of the run. */
  lemma RecordsDistinct(t: Texts, records: seq<Record>, results: Rows, disk: Rows, trail: seq<Rows>)
    requires DurableRows(t, records, results, disk, trail)
    ensures DistinctKeys(records)
  {
  }

  lemma SameKeys(t: Texts, records: seq<Record>, results: Rows, disk: Rows, trail: seq<Rows>, i: nat)
    requires DurableRows(t, records, results, disk, trail) && i < |records|
    ensures records[i].key in disk <==> records[i].key in results
  {
  }

  lemma CheckpointDurable(t: Texts, records: seq<Record>, results: Rows, disk: Rows, trail: seq<Rows>, i: nat, row: Row)
    requires DurableRows(t, records, results, disk, trail) && i < |records|
    requires Legit(t, records[i], row) && records[i].key !in disk
    ensures var key := records[i].key;
            && DurableRows(t, records, results[key := row], disk[key := row], trail + [disk[key := row]])
            && Keeps(disk, disk[key := row])
  {
    hide Legit;
  }

  lemma NeverOnDisk(t: Texts, records: seq<Record>, results: Rows, disk: Rows, trail: seq<Rows>, place: seq<Place>,
                    i: nat)
    requires DurableRows(t, records, results, disk, trail) && Settled(records, results, place)
    requires i < |records| && place[i] != Finished
    ensures forall j | 0 <= j < |trail| :: records[i].key !in trail[j]
  {
    hide LegitDisk;
    assert records[i].key !in trail[|trail| - 1];
  }

  /** Any disk of the trail can be resumed from. */
  lemma TrailIsLegit(t: Texts, records: seq<Record>, results: Rows, disk: Rows, trail: seq<Rows>, c: nat)
    requires DurableRows(t, records, results, disk, trail) && c < |trail|
    ensures LegitDisk(t, records, trail[c]) && Keeps(trail[0], trail[c]) && Keeps(trail[c], disk)
  {
    hide Legit;
    assert Keeps(trail[c], trail[|trail| - 1]);
  }

  /** A saved row is accepted when it is this record's, for the same input, and terminal. */
  predicate Acceptable(r: Record, row: Row) {
    row.key == r.key && row.inputSha == r.inputSha && row.outcome != Pending
  }

  /** Loads the saved rows of the records; any unacceptable one stops the run. */
  method LoadSaved(records: seq<Record>, disk: Rows) returns (r: Result<Rows, string>)
    requires DistinctKeys(records)
    ensures r.Ok? <==> forall i | 0 <= i < |records| && records[i].key in disk ::
              var row := disk[records[i].key];
              row.key == records[i].key && row.inputSha == records[i].inputSha && row.outcome != Pending
    ensures r.Ok? ==> Keeps(r.value, disk) && forall key | key in r.value :: key in disk && r.value[key] == disk[key]
    ensures r.Ok? ==> forall i | 0 <= i < |records| :: records[i].key in r.value <==> records[i].key in disk
  {
    var results: Rows := map[];
    for i := 0 to |records|
      invariant forall k | 0 <= k < i && records[k].key in disk :: Acceptable(records[k], disk[records[k].key])
      invariant Keeps(results, disk)
      invariant forall k | 0 <= k < |records| :: records[k].key in results <==> k < i && records[k].key in disk
    {
      var key := records[i].key;
      if key in disk {
        if !Acceptable(records[i], disk[key]) { return Err(key); }
        results := results[key := disk[key]];
      }
    }
    return Ok(results);
  }

  /** What earlier runs on the same records left behind is always accepted. */
  lemma OwnCheckpointsLoad(t: Texts, records: seq<Record>, disk: Rows)
    requires LegitDisk(t, records, disk)
    ensures forall i | 0 <= i < |records| && records[i].key in disk :: Acceptable(records[i], disk[records[i].key])
  {
    forall i | 0 <= i < |records| && records[i].key in disk
      ensures Acceptable(records[i], disk[records[i].key])
    {
      LegitRowsAreSound(t, records[i], disk[records[i].key]);
    }
  }

  // ----- the run -----

  /** The pool is bounded, no record is fetched twice, and only records that need a request
      are unfinished. */
  ghost predicate Pooled(t: Texts, records: seq<Record>, workers: nat, place: seq<Place>, inFlight: seq<nat>,
                         calls: seq<nat>) {
    && 1 <= workers && |inFlight| <= workers && Unique(calls) && |place| == |records|
    && (forall i | i in calls ::
          i < |place| && place[i] in {Flying, Finished} && PrepareWithoutRequest(t, records[i]) == None)
    && forall i | 0 <= i < |records| && place[i] != Finished :: PrepareWithoutRequest(t, records[i]) == None
  }

  lemma StaysSettled(records: seq<Record>, results: Rows, place: seq<Place>, i: nat)
    requires Settled(records, results, place) && i < |records| && place[i] != Finished
    ensures Settled(records, results, place[i := Flying])
  {
  }

  lemma SubmitPooled(t: Texts, records: seq<Record>, workers: nat, place: seq<Place>, inFlight: seq<nat>,
                     calls: seq<nat>, i: nat)
    requires Pooled(t, records, workers, place, inFlight, calls)
    requires i < |place| && place[i] == Queued && |inFlight| < workers
    ensures Pooled(t, records, workers, place[i := Flying], inFlight + [i], calls + [i]) && i !in calls
  {
    hide PrepareWithoutRequest;
    Pushed(calls, i);
  }

  lemma PoolShrinks(t: Texts, records: seq<Record>, workers: nat, place: seq<Place>, inFlight: seq<nat>,
                    calls: seq<nat>,
                    j: nat)
    requires Pooled(t, records, workers, place, inFlight, calls) && j < |inFlight|
    ensures Pooled(t, records, workers, place, inFlight[..j] + inFlight[j + 1..], calls)
    ensures forall i | 0 <= i < |records| && place[i] != Finished :: PrepareWithoutRequest(t, records[i]) == None
  {
    hide PrepareWithoutRequest;
  }

  lemma NotCalled(t: Texts, records: seq<Record>, workers: nat, place: seq<Place>, inFlight: seq<nat>, calls: seq<nat>,
                  i: nat)
    requires Pooled(t, records, workers, place, inFlight, calls) && i < |place| && place[i] !in {Flying, Finished}
    ensures i !in calls
  {
    hide PrepareWithoutRequest;
  }

  // ----- where the rows come from, and which requests are made -----

  type Responses = map<nat, Response>

  function HydrationOf(t: Texts, records: seq<Record>, received: Responses, l: nat): Hydration
    requires l < |records| && l in received
  {
    HydrateRow(t, records[l], received[l]).hydration
  }

  /** The response that record `l` received serves both it and record `i`. */
  predicate Serves(t: Texts, records: seq<Record>, received: Responses, l: nat, i: nat)
    requires l < |records| && i < |records| && l in received
  {
    var h := HydrationOf(t, records, received, l);
    Shareable(t, records[l], h) && Shareable(t, records[i], h)
  }

  /** The row of `i` is that of the response which another member of its group received. */
  ghost predicate Reused(t: Texts, records: seq<Record>, group: nat -> Option<string>, received: Responses, d: Rows,
                         l: nat, i: nat)
    requires i < |records| && records[i].key in d
  {
    && l < |records| && l in received && records[l].key in d
    && group(i).Some? && group(l) == group(i) && Serves(t, records, received, l, i)
    && d[records[i].key] == ReuseRow(records[i], records[l], HydrationOf(t, records, received, l))
  }

  /** A row of this run is the prepared one, that of the record's own response, or, for a record
      that made no request, that of a response received for its group. */
  ghost predicate Source(t: Texts, records: seq<Record>, group: nat -> Option<string>, received: Responses, d: Rows,
                         i: nat)
    requires i < |records| && records[i].key in d
  {
    || PrepareWithoutRequest(t, records[i]) == Some(d[records[i].key])
    || (i in received && d[records[i].key] == HydrateRow(t, records[i], received[i]))
    || (i !in received && exists l: nat :: Reused(t, records, group, received, d, l, i))
  }

  ghost predicate Sourced(t: Texts, records: seq<Record>, group: nat -> Option<string>, received: Responses,
                          first: Rows,
                          d: Rows)
  {
    forall i | 0 <= i < |records| && records[i].key in d && records[i].key !in first ::
      Source(t, records, group, received, d, i)
  }

  ghost predicate SourcedAll(t: Texts, records: seq<Record>, group: nat -> Option<string>, received: Responses,
                             trail: seq<Rows>)
  {
    trail != [] && forall c | 0 <= c < |trail| :: Sourced(t, records, group, received, trail[0], trail[c])
  }

  lemma SourceGrows(t: Texts, records: seq<Record>, group: nat -> Option<string>, received: Responses, d: Rows,
                    i: nat, key: string, row: Row)
    requires i < |records| && records[i].key in d && key !in d && Source(t, records, group, received, d, i)
    ensures Source(t, records, group, received, d[key := row], i)
  {
    hide Serves, HydrationOf, HydrateRow, PrepareWithoutRequest, ReuseRow;
    if i !in received && exists l: nat :: Reused(t, records, group, received, d, l, i) {
      var l: nat :| Reused(t, records, group, received, d, l, i);
      assert Reused(t, records, group, received, d[key := row], l, i);
    }
  }

  lemma CheckpointSourced(t: Texts, records: seq<Record>, group: nat -> Option<string>, received: Responses,
                          trail: seq<Rows>, d: Rows, i: nat, row: Row)
    requires SourcedAll(t, records, group, received, trail) && trail[|trail| - 1] == d && DistinctKeys(records)
    requires i < |records| && records[i].key !in d
    requires Source(t, records, group, received, d[records[i].key := row], i)
    ensures SourcedAll(t, records, group, received, trail + [d[records[i].key := row]])
  {
    hide Source;
    var next := d[records[i].key := row];
    assert Sourced(t, records, group, received, trail[0], d);
    forall k | 0 <= k < |records| && records[k].key in next && records[k].key !in trail[0]
      ensures Source(t, records, group, received, next, k)
    {
      if k != i {
        assert records[k].key != records[i].key;
        SourceGrows(t, records, group, received, d, k, records[i].key, row);
      }
    }
  }

  /** A response for a record without a row disturbs no row. */
  lemma ReceiveSourced(t: Texts, records: seq<Record>, group: nat -> Option<string>, received: Responses,
                       trail: seq<Rows>, i: nat, response: Response)
    requires SourcedAll(t, records, group, received, trail) && i < |records|
    requires forall c | 0 <= c < |trail| :: records[i].key !in trail[c]
    ensures SourcedAll(t, records, group, received[i := response], trail)
  {
    hide Source;
    forall c, k | 0 <= c < |trail| && 0 <= k < |records| && records[k].key in trail[c] && records[k].key !in trail[0]
      ensures Source(t, records, group, received[i := response], trail[c], k)
    {
      assert Sourced(t, records, group, received, trail[0], trail[c]);
      StillSource(t, records, group, received, trail[c], k, i, response);
    }
  }

  lemma StillSource(t: Texts, records: seq<Record>, group: nat -> Option<string>, received: Responses, d: Rows,
                    k: nat, i: nat, response: Response)
    requires k < |records| && i < |records| && records[k].key in d && records[i].key !in d
    requires Source(t, records, group, received, d, k)
    ensures Source(t, records, group, received[i := response], d, k)
  {
    hide HydrateRow, PrepareWithoutRequest, ReuseRow, Shareable;
    if k !in received && exists l: nat :: Reused(t, records, group, received, d, l, k) {
      var l: nat :| Reused(t, records, group, received, d, l, k);
      assert Reused(t, records, group, received[i := response], d, l, k);
    }
  }

  /** However its row came about, a record that needs a request has the row that fetching some
      response received in the run would have given it. */
  lemma SourceIsFetched(t: Texts, records: seq<Record>, group: nat -> Option<string>, received: Responses, d: Rows,
                        i: nat)
    requires i < |records| && records[i].key in d && Source(t, records, group, received, d, i)
    requires PrepareWithoutRequest(t, records[i]) == None
    ensures exists l: nat :: l in received && SameHydration(d[records[i].key], HydrateRow(t, records[i], received[l]))
  {
    hide HydrateRow, PrepareWithoutRequest, ReuseRow, Shareable;
    if i in received {
      assert d[records[i].key] == HydrateRow(t, records[i], received[i]);
      assert SameHydration(d[records[i].key], HydrateRow(t, records[i], received[i]));
    } else {
      var l: nat :| Reused(t, records, group, received, d, l, i);
      ReusedLikeFetched(t, records[i], records[l], received[l]);
    }
  }

  /** In the response's own fields: a complete official capture, complete by the assessment,
      that names one native id and one title, and no company. */
  ghost predicate OfficialCapture(t: Texts, h: Hydration) {
    && t.fold(h.status) == "complete" && t.fold(h.identityStatus) == "matched" && !h.companyBound
    && h.evidence.Some? && t.fold(h.evidence.value.captureMethod) == "official_api"
    && |h.nativeIds| == 1 && |h.titles| == 1 && Assess(h.detail, h.evidence).complete
  }

  /** The capture is of the job's own URL, under its own native id and title. */
  ghost predicate CaptureOf(t: Texts, h: Hydration, job: Job) {
    && OfficialCapture(t, h)
    && t.jobUrl(job) != "" && t.url(h.evidence.value.sourceUrl) == t.jobUrl(job)
    && t.nativeId(job) != "" && t.idKey(h.nativeIds[0]) == t.idKey(t.nativeId(job)) && h.titles[0] == t.title(job)
  }

  /** Exactly such a response is shared. */
  lemma ShareableExactly(t: Texts, r: Record, h: Hydration)
    ensures Shareable(t, r, h) <==> CaptureOf(t, h, r.job)
  {
    hide Assess;
  }

  /** A reused row, of a record that made no request, is that of a response which another
      record of its group received and which captures both jobs. */
  ghost predicate ReuseProved(t: Texts, records: seq<Record>, group: nat -> Option<string>, received: Responses,
                              i: nat, row: Row)
    requires i < |records|
  {
    && i !in received && !row.requestMade && row.outcome == Hydrated
    && CaptureOf(t, row.hydration, records[i].job)
    && exists l: nat | l in received && l < |records| ::
         && group(l) == group(i) != None && received[l] == Returned(row.hydration)
         && row.reusedFrom == Some(records[l].key) && CaptureOf(t, row.hydration, records[l].job)
  }

  lemma ReusedIsProved(t: Texts, records: seq<Record>, group: nat -> Option<string>, received: Responses, d: Rows,
                       i: nat)
    requires i < |records| && records[i].key in d && Source(t, records, group, received, d, i)
    requires d[records[i].key].reusedFrom.Some?
    ensures ReuseProved(t, records, group, received, i, d[records[i].key])
  {
    hide Assess;
    var l: nat :| Reused(t, records, group, received, d, l, i);
    assert l in received;
  }

  /** The first response of the record's group captures both jobs. */
  ghost predicate Spared(t: Texts, records: seq<Record>, group: nat -> Option<string>, pending: seq<nat>,
                         received: Responses, i: nat)
    requires i < |records| && i in pending
  {
    var l := Leader(pending, group, i);
    && l != i && l < |records| && l in received && received[l].Returned?
    && CaptureOf(t, received[l].hydration, records[l].job) && CaptureOf(t, received[l].hydration, records[i].job)
  }

  /** Such a record needs no request of its own. */
  lemma SparedIsNotNeeded(t: Texts, records: seq<Record>, group: nat -> Option<string>, pending: seq<nat>,
                          received: Responses, i: nat)
    requires i < |records| && i in pending && Spared(t, records, group, pending, received, i)
    ensures !Needed(t, records, group, pending, received, i)
  {
    hide Assess;
  }

  /** A row says that a request was made only if its record made one, and it does so unless the
      response denies it. */
  lemma RequestSaid(t: Texts, records: seq<Record>, group: nat -> Option<string>, received: Responses, d: Rows, i: nat)
    requires i < |records| && records[i].key in d && Source(t, records, group, received, d, i)
    requires i in received ==> PrepareWithoutRequest(t, records[i]) == None
    ensures d[records[i].key].requestMade <==>
              i in received && (received[i].Returned? ==> received[i].hydration.requestMade != Some(false))
  {
    hide Assess, CohortConfirmed, Shareable;
  }

  /** What the rows of a run say and which requests it spared.  Whoever reuses a response is
      proved by it; whom the group's first response proves is not fetched; and a row says that
      a request was made iff it was and the response does not deny it. */
  ghost predicate Explained(t: Texts, records: seq<Record>, group: nat -> Option<string>, pending: seq<nat>,
                            received: Responses, calls: seq<nat>, first: Rows, lines: seq<Row>)
  {
    && |lines| == |records| && (forall i | i in calls :: i in received)
    && (forall i | 0 <= i < |lines| && records[i].key !in first ::
          && (lines[i].reusedFrom.Some? ==> ReuseProved(t, records, group, received, i, lines[i]))
          && (lines[i].requestMade <==>
                i in calls && (received[i].Returned? ==> received[i].hydration.requestMade != Some(false))))
    && forall i | i in pending && i < |records| && Spared(t, records, group, pending, received, i) :: i !in calls
  }

  /** A request is needed for the first member of a group, and for another one when the first
      one's response does not serve both. */
  ghost predicate Needed(t: Texts, records: seq<Record>, group: nat -> Option<string>, pending: seq<nat>,
                         received: Responses,
                         i: nat)
  {
    && i < |records| && i in pending
    && var l := Leader(pending, group, i);
       l == i || (l < |records| && l in received && !Serves(t, records, received, l, i))
  }

  ghost predicate Follows(group: nat -> Option<string>, pending: seq<nat>, i: nat, l: nat) {
    i in pending && Leader(pending, group, i) == l && l != i
  }

  /** What is queued or was sent is needed, and the others wait for the first of their group. */
  ghost predicate Frugal(t: Texts, records: seq<Record>, group: nat -> Option<string>, pending: seq<nat>,
                         received: Responses,
                         queue: seq<nat>, waiters: map<nat, seq<nat>>, calls: seq<nat>)
  {
    && (forall i | i in queue :: Needed(t, records, group, pending, received, i))
    && (forall i | i in calls :: Needed(t, records, group, pending, received, i))
    && (forall l | l in waiters :: forall i | i in waiters[l] :: Follows(group, pending, i, l))
  }

  /** The calls that were answered are those whose record is finished. */
  ghost predicate Answered(place: seq<Place>, calls: seq<nat>, received: Responses) {
    && (forall i | i in received :: i in calls)
    && (forall i | i in calls :: i < |place| && (i in received <==> place[i] == Finished))
    && (forall i | 0 <= i < |place| && place[i] == Flying :: i in calls)
  }

  lemma SubmitAnswered(place: seq<Place>, calls: seq<nat>, received: Responses, i: nat)
    requires Answered(place, calls, received) && i < |place| && place[i] == Queued && i !in calls
    ensures Answered(place[i := Flying], calls + [i], received)
  {
  }

  lemma LandAnswered(place: seq<Place>, calls: seq<nat>, received: Responses, i: nat, response: Response)
    requires Answered(place, calls, received) && i < |place| && place[i] == Flying
    ensures i !in received && Answered(place[i := Finished], calls, received[i := response])
  {
  }

  lemma ServeAnswered(place: seq<Place>, calls: seq<nat>, received: Responses, i: nat, next: Place)
    requires Answered(place, calls, received) && i < |place| && i !in calls && next in {Queued, Finished}
    ensures i !in received && Answered(place[i := next], calls, received)
  {
  }

  lemma SameGroup(group: nat -> Option<string>, pending: seq<nat>, i: nat, l: nat)
    requires Follows(group, pending, i, l)
    ensures group(i).Some? && group(l) == group(i)
  {
    assert l in Members(pending, group, group(i).value);
  }

  lemma StillNeeded(t: Texts, records: seq<Record>, group: nat -> Option<string>, pending: seq<nat>,
                    received: Responses,
                    i: nat, k: nat, response: Response)
    requires Needed(t, records, group, pending, received, i) && k !in received
    ensures Needed(t, records, group, pending, received[k := response], i)
  {
    hide HydrateRow, Shareable, Leader;
  }

  lemma ReceiveFrugal(t: Texts, records: seq<Record>, group: nat -> Option<string>, pending: seq<nat>,
                      received: Responses,
                      queue: seq<nat>, waiters: map<nat, seq<nat>>, calls: seq<nat>, k: nat, response: Response)
    requires Frugal(t, records, group, pending, received, queue, waiters, calls) && k !in received
    ensures Frugal(t, records, group, pending, received[k := response], queue, waiters - {k}, calls)
  {
    hide Needed, Follows;
    forall i | i in queue || i in calls ensures Needed(t, records, group, pending, received[k := response], i) {
      StillNeeded(t, records, group, pending, received, i, k, response);
    }
  }

  lemma InitiallyFrugal(t: Texts, records: seq<Record>, results: Rows, group: nat -> Option<string>, pending: seq<nat>,
                        queue: seq<nat>, waiters: map<nat, seq<nat>>)
    requires IsPending(records, results, pending) && GroupedAs(pending, group, queue, waiters)
    ensures Frugal(t, records, group, pending, map[], queue, waiters, [])
  {
    hide Leader, Members, Unique;
    forall l, i | l in waiters && i in waiters[l] ensures Follows(group, pending, i, l) {
      GroupOf(pending, group, l, group(l).value);
    }
  }

  lemma SubmitFrugal(t: Texts, records: seq<Record>, group: nat -> Option<string>, pending: seq<nat>,
                     received: Responses,
                     queue: seq<nat>, waiters: map<nat, seq<nat>>, calls: seq<nat>)
    requires Frugal(t, records, group, pending, received, queue, waiters, calls) && queue != []
    ensures Frugal(t, records, group, pending, received, queue[1..], waiters, calls + [queue[0]])
  {
    hide Needed, Follows;
  }

  lemma WaitersFollow(t: Texts, records: seq<Record>, group: nat -> Option<string>, pending: seq<nat>,
                      received: Responses,
                      queue: seq<nat>, waiters: map<nat, seq<nat>>, calls: seq<nat>, l: nat)
    requires Frugal(t, records, group, pending, received, queue, waiters, calls)
    ensures l in waiters ==> forall w | w in waiters[l] :: Follows(group, pending, w, l)
  {
    hide Needed, Follows;
  }

  /** A waiter that its leader's response does not serve needs its own request. */
  lemma QueueFrugal(t: Texts, records: seq<Record>, group: nat -> Option<string>, pending: seq<nat>,
                    received: Responses,
                    queue: seq<nat>, waiters: map<nat, seq<nat>>, calls: seq<nat>, l: nat, i: nat)
    requires Frugal(t, records, group, pending, received, queue, waiters, calls)
    requires l < |records| && i < |records| && l in received && Follows(group, pending, i, l)
    requires !Serves(t, records, received, l, i)
    ensures Frugal(t, records, group, pending, received, queue + [i], waiters, calls)
  {
    hide Leader, Serves;
    assert Needed(t, records, group, pending, received, i);
  }

  lemma PreparedSource(t: Texts, records: seq<Record>, group: nat -> Option<string>, received: Responses, d: Rows,
                       i: nat, row: Row)
    requires i < |records| && PrepareWithoutRequest(t, records[i]) == Some(row)
    ensures Source(t, records, group, received, d[records[i].key := row], i)
  {
    hide PrepareWithoutRequest;
  }

  lemma HydratedSource(t: Texts, records: seq<Record>, group: nat -> Option<string>, received: Responses, d: Rows,
                       i: nat, row: Row)
    requires i < |records| && i in received && row == HydrateRow(t, records[i], received[i])
    ensures Source(t, records, group, received, d[records[i].key := row], i)
  {
    hide HydrateRow;
  }

  lemma ReusedSource(t: Texts, records: seq<Record>, group: nat -> Option<string>, received: Responses, d: Rows,
                     l: nat, i: nat, row: Row)
    requires l < |records| && i < |records| && l in received && i !in received && records[l].key in d
    requires group(i).Some? && group(l) == group(i) && Serves(t, records, received, l, i)
    requires row == ReuseRow(records[i], records[l], HydrationOf(t, records, received, l))
    ensures Source(t, records, group, received, d[records[i].key := row], i)
  {
    hide HydrateRow, ReuseRow, Shareable;
    assert Reused(t, records, group, received, d[records[i].key := row], l, i);
  }

  lemma PendingUnique(records: seq<Record>, results: Rows, pending: seq<nat>)
    requires IsPending(records, results, pending)
    ensures Unique(pending)
  {
  }

  lemma LastOnTrail(t: Texts, records: seq<Record>, results: Rows, disk: Rows, trail: seq<Rows>)
    requires DurableRows(t, records, results, disk, trail)
    ensures trail != [] && trail[|trail| - 1] == disk
    ensures forall i | 0 <= i < |records| :: records[i].key in disk <==> records[i].key in results
  {
  }

  lemma FinishedOnDisk(t: Texts, records: seq<Record>, results: Rows, disk: Rows, trail: seq<Rows>, place: seq<Place>,
                       i: nat)
    requires DurableRows(t, records, results, disk, trail) && Settled(records, results, place)
    requires i < |records| && place[i] == Finished
    ensures records[i].key in disk
  {
  }

  lemma OrphanPlaces(n: nat, place: seq<Place>, queue: seq<nat>, waiters: map<nat, seq<nat>>, inFlight: seq<nat>,
                     orphans: seq<nat>, left: nat)
    requires Located(n, place, queue, waiters, inFlight, orphans, left) && orphans != []
    ensures orphans[0] < n == |place| && place[orphans[0]] == Waiting(left) && left < n && place[left] == Finished
  {
    assert orphans[0] in orphans;
  }

  lemma RequestNeeded(t: Texts, records: seq<Record>, workers: nat, place: seq<Place>, inFlight: seq<nat>,
                      calls: seq<nat>, i: nat)
    requires Pooled(t, records, workers, place, inFlight, calls) && i < |place| && place[i] != Finished
    ensures PrepareWithoutRequest(t, records[i]) == None
    ensures Pooled(t, records, workers, place[i := Queued], inFlight, calls) || i in calls
  {
    hide PrepareWithoutRequest;
  }

  class Scheduler {
    const t: Texts
    const records: seq<Record>
    const workers: nat
    const group: nat -> Option<string>

    var results: Rows
    var disk: Rows
    var trail: seq<Rows>
    var counts: map<Outcome, nat>
    var attempted: nat
    var queue: seq<nat>
    var waiters: map<nat, seq<nat>>
    var inFlight: seq<nat>
    var calls: seq<nat>
    ghost var place: seq<Place>
    ghost var pending: seq<nat>
    ghost var received: Responses

    ghost predicate Durable()
      reads this`results, this`disk, this`trail
    {
      DurableRows(t, records, results, disk, trail)
    }

    ghost predicate Counted()
      reads this`results, this`counts, this`attempted
    {
      Counts(records, results, counts) && attempted == Attempted(records, results)
    }

    /** Each record is in exactly one place, and has a row exactly when it is finished. */
    ghost predicate Placed(orphans: seq<nat>, left: nat)
      reads this`results, this`queue, this`waiters, this`inFlight, this`place
    {
      Settled(records, results, place) && Located(|records|, place, queue, waiters, inFlight, orphans, left)
    }

    ghost predicate Pool()
      reads this`inFlight, this`calls, this`place
    {
      Pooled(t, records, workers, place, inFlight, calls)
    }

    /** No record is fetched whose row the run found on disk. */
    ghost predicate NoRefetch()
      reads this`calls, this`trail
    {
      trail != [] && forall i | i in calls :: i < |records| && records[i].key !in trail[0]
    }

    /** Every row stored by this run comes from a response that it received. */
    ghost predicate Origins()
      reads this`trail, this`received
    {
      SourcedAll(t, records, group, received, trail)
    }

    ghost predicate Replies()
      reads this`place, this`calls, this`received
    {
      Answered(place, calls, received)
    }

    ghost predicate Frugality()
      reads this`queue, this`waiters, this`calls, this`received, this`pending
    {
      Frugal(t, records, group, pending, received, queue, waiters, calls)
    }

    ghost predicate Valid()
      reads this
    {
      Durable() && Counted() && Placed([], 0) && Pool() && NoRefetch() && Origins() && Replies() && Frugality()
    }

    /** A run on the records, resuming from the saved rows: records that need no request get
        their row at once, the others are grouped; one record of a group is queued and the
        rest wait for it. */
    constructor Resume(t: Texts, records: seq<Record>, workers: nat, group: nat -> Option<string>, disk: Rows,
                       saved: Rows)
      requires DistinctKeys(records) && LegitDisk(t, records, disk) && 1 <= workers <= 12
      requires Keeps(saved, disk)
      requires forall i | 0 <= i < |records| :: records[i].key in saved <==> records[i].key in disk
      ensures Valid() && this.t == t && this.records == records && this.workers == workers && this.group == group
      ensures calls == [] && received == map[] && trail[0] == disk && Keeps(disk, this.disk)
      ensures IsPending(records, results, pending) && InOrder(pending) && GroupedAs(pending, group, queue, waiters)
    {
      hide PrepareWithoutRequest, Legit, Located, Settled, Pooled, Counts, Frugal, Answered, GroupedAs, IsPending,
           InOrder;
      this.t, this.records, this.workers, this.group := t, records, workers, group;
      this.results, this.disk, this.trail := saved, disk, [disk];
      counts, attempted := map[], 0;
      queue, waiters, inFlight, calls, place, pending, received := [], map[], [], [], [], [], map[];
      new;
      assert trail[0] == disk;
      PrepareAll();
      Enqueue();
    }

    /** Exactly the records that need no request are given a row, stored and checkpointed before
        anything is queued. */
    method PrepareAll()
      requires Durable() && Origins()
      modifies this`results, this`disk, this`trail
      ensures Durable() && Origins() && old(trail) <= trail && Keeps(old(disk), disk) && Keeps(old(results), results)
      ensures forall i | 0 <= i < |records| :: records[i].key in results || PrepareWithoutRequest(t, records[i]) == None
      ensures forall i | 0 <= i < |records| && records[i].key !in old(results) ::
                records[i].key in results ==> PrepareWithoutRequest(t, records[i]) == Some(results[records[i].key])
    {
      hide Legit, LegitDisk, PrepareWithoutRequest, DurableRows, SourcedAll, Source;
      RecordsDistinct(t, records, results, disk, trail);
      for i := 0 to |records|
        invariant Durable() && Origins()
        invariant old(trail) <= trail && Keeps(old(disk), disk) && Keeps(old(results), results)
        invariant forall k | 0 <= k < i :: records[k].key in results || PrepareWithoutRequest(t, records[k]) == None
        invariant forall k | 0 <= k < |records| && records[k].key !in old(results) ::
                    records[k].key in results ==> PrepareWithoutRequest(t, records[k]) == Some(results[records[k].key])
      {
        SameKeys(t, records, results, disk, trail, i);
        if records[i].key !in results {
          var prepared := PrepareWithoutRequest(t, records[i]);
          if prepared.Some? {
            PreparedIsLegit(t, records[i], prepared.value);
            PreparedSource(t, records, group, received, disk, i, prepared.value);
            Checkpoint(i, prepared.value);
          }
        }
      }
    }

    /** Counts what there is and puts every other record in the queue or behind its leader. */
    method Enqueue()
      requires Durable() && Origins() && trail != [] && 1 <= workers && inFlight == [] && calls == []
               && received == map[]
      requires forall i | 0 <= i < |records| ::
                 records[i].key in results || PrepareWithoutRequest(t, records[i]) == None
      modifies this`counts, this`attempted, this`queue, this`waiters, this`place, this`pending
      ensures Valid()
      ensures IsPending(records, results, pending) && InOrder(pending) && GroupedAs(pending, group, queue, waiters)
    {
      hide DurableRows, Legit, Located, Unique, Counts, PrepareWithoutRequest, Leader, Members, InitialPlaces,
           DistinctKeys, Settled,
           GroupedAs, Pool, SourcedAll, Frugal, IsPending, Answered;
      Recount();
      var waiting := PendingRecords(records, results);
      pending := waiting;
      PendingUnique(records, results, waiting);
      queue, waiters := Grouped(waiting, group);
      Grouping(waiting, queue, waiters);
      place := InitialPlaces(records, results, waiting, group);
      PoolReady();
    }

    /** The places, the reasons for requests and the replies right after grouping. */
    lemma Grouping(waiting: seq<nat>, queue: seq<nat>, waiters: map<nat, seq<nat>>)
      requires IsPending(records, results, waiting) && GroupedAs(waiting, group, queue, waiters)
      ensures var place := InitialPlaces(records, results, waiting, group);
              && Settled(records, results, place) && Located(|records|, place, queue, waiters, [], [], 0)
              && |place| == |records| && (forall i | 0 <= i < |records| && place[i] != Finished ::
                                            records[i].key !in results)
              && Answered(place, [], map[])
      ensures Frugal(t, records, group, waiting, map[], queue, waiters, [])
    {
      hide Leader, Members, GroupedAs, IsPending, Located, Settled, Frugal;
      InitiallyLocated(records, results, waiting, group, queue, waiters);
      InitiallyFrugal(t, records, results, group, waiting, queue, waiters);
    }

    method Recount()
      modifies this`counts, this`attempted
      ensures Counted()
    {
      hide Counts;
      counts, attempted := ResultCounts(records, results);
    }

    lemma PoolReady()
      requires 1 <= workers && inFlight == [] && calls == [] && |place| == |records|
      requires forall i | 0 <= i < |records| ::
                 records[i].key in results || PrepareWithoutRequest(t, records[i]) == None
      requires forall i | 0 <= i < |records| && place[i] != Finished :: records[i].key !in results
      ensures Pool()
    {
    }

    method Checkpoint(i: nat, row: Row)
      requires Durable() && Origins() && i < |records| && Legit(t, records[i], row) && records[i].key !in disk
      requires Source(t, records, group, received, disk[records[i].key := row], i)
      modifies this`results, this`disk, this`trail
      ensures Durable() && Origins() && old(trail) <= trail && Keeps(old(disk), disk)
      ensures results == old(results)[records[i].key := row] && disk == old(disk)[records[i].key := row]
    {
      hide DurableRows, Legit, Keeps, SourcedAll, Source, DistinctKeys;
      CheckpointDurable(t, records, results, disk, trail, i, row);
      RecordsDistinct(t, records, results, disk, trail);
      LastOnTrail(t, records, results, disk, trail);
      CheckpointSourced(t, records, group, received, trail, disk, i, row);
      var key := records[i].key;
      results, disk := results[key := row], disk[key := row];
      trail := trail + [disk];
    }

    /** Stores a row and moves the counters along, dropping a counter that reaches zero. */
    method StoreResult(i: nat, row: Row)
      requires Durable() && Counted() && Origins()
      requires i < |records| && Legit(t, records[i], row) && records[i].key !in disk
      requires Source(t, records, group, received, disk[records[i].key := row], i)
      modifies this`results, this`disk, this`trail, this`counts, this`attempted
      ensures Durable() && Counted() && Origins() && old(trail) <= trail && Keeps(old(disk), disk)
      ensures results == old(results)[records[i].key := row] && disk == old(disk)[records[i].key := row]
      ensures Tally(records, results, Pending) == old(Tally(records, results, Pending)) - 1
    {
      hide Legit, Counts, Source, SourcedAll;
      LegitRowsAreSound(t, records[i], row);
      TallyAfterStore(records, results, i, row, Pending);
      counts, attempted := MoveCounters(records, results, counts, attempted, i, row);
      Checkpoint(i, row);
    }

    /** The first record of the queue enters the pool. */
    lemma Submitting()
      requires Valid() && queue != [] && |inFlight| < workers
      ensures var i := queue[0];
              && i < |records| == |place| && records[i].key !in trail[0]
              && Settled(records, results, place[i := Flying])
              && Located(|records|, place[i := Flying], queue[1..], waiters, inFlight + [i], [], 0)
              && Pooled(t, records, workers, place[i := Flying], inFlight + [i], calls + [i])
              && Answered(place[i := Flying], calls + [i], received)
              && Frugal(t, records, group, pending, received, queue[1..], waiters, calls + [i])
    {
      hide DurableRows, Counts, DistinctKeys, Located, Pooled, Keeps, Settled, SourcedAll, Frugal, Answered;
      SubmitLocated(|records|, place, queue, waiters, inFlight);
      var i := queue[0];
      SubmitPooled(t, records, workers, place, inFlight, calls, i);
      SubmitAnswered(place, calls, received, i);
      SubmitFrugal(t, records, group, pending, received, queue, waiters, calls);
      NeverOnDisk(t, records, results, disk, trail, place, i);
      StaysSettled(records, results, place, i);
    }

    /** Submits queued records until the pool is full or the queue is empty. */
    method Fill()
      requires Valid()
      modifies this`queue, this`inFlight, this`calls, this`place
      ensures Valid() && (|inFlight| >= workers || queue == [])
      ensures exists n: nat ::
                && n <= |old(queue)| && queue == old(queue)[n..]
                && inFlight == old(inFlight) + old(queue)[..n] && calls == old(calls) + old(queue)[..n]
    {
      hide DurableRows, Counts, DistinctKeys, Located, Pooled, Keeps, Settled, SourcedAll, Frugal, Answered;
      ghost var n := 0;
      while |inFlight| < workers && queue != []
        invariant Valid()
        invariant n <= |old(queue)| && queue == old(queue)[n..]
        invariant inFlight == old(inFlight) + old(queue)[..n] && calls == old(calls) + old(queue)[..n]
        decreases |queue|
      {
        n := n + 1;
        var i := queue[0];
        Submitting();
        queue := queue[1..];
        inFlight := inFlight + [i];
        calls := calls + [i];
        place := place[i := Flying];
      }
    }

    /** Stores the row of a record that is in flight or waiting, which finishes it. */
    method FinishRecord(i: nat, row: Row)
      requires Durable() && Counted() && Pool() && Origins() && Settled(records, results, place)
      requires i < |records| && place[i] != Finished && Legit(t, records[i], row)
      requires Source(t, records, group, received, disk[records[i].key := row], i)
      modifies this`results, this`disk, this`trail, this`counts, this`attempted, this`place
      ensures Durable() && Counted() && Pool() && Origins() && Settled(records, results, place)
      ensures place == old(place)[i := Finished] && results == old(results)[records[i].key := row]
      ensures old(trail) <= trail && Keeps(old(disk), disk) && Keeps(old(results), results)
      ensures Tally(records, results, Pending) == old(Tally(records, results, Pending)) - 1
    {
      hide Counts, Legit, LegitDisk, Tally, Unique, PrepareWithoutRequest, Source, SourcedAll;
      StoreResult(i, row);
      place := place[i := Finished];
    }

    /** A response to a record in flight: no row stored so far is touched, and it explains the
        record's own row. */
    lemma Received(i: nat, response: Response)
      requires Durable() && Origins() && Replies() && Frugality() && Settled(records, results, place)
      requires i < |records| && place[i] == Flying
      ensures i !in received && SourcedAll(t, records, group, received[i := response], trail)
      ensures Answered(place[i := Finished], calls, received[i := response])
      ensures Frugal(t, records, group, pending, received[i := response], queue, waiters - {i}, calls)
      ensures i in waiters ==> forall w | w in waiters[i] :: Follows(group, pending, w, i)
      ensures Source(t, records, group, received[i := response],
                     disk[records[i].key := HydrateRow(t, records[i], response)], i)
    {
      hide DurableRows, SourcedAll, Source, Frugal, Answered, Follows, HydrateRow;
      NeverOnDisk(t, records, results, disk, trail, place, i);
      LandAnswered(place, calls, received, i, response);
      ReceiveSourced(t, records, group, received, trail, i, response);
      ReceiveFrugal(t, records, group, pending, received, queue, waiters, calls, i, response);
      WaitersFollow(t, records, group, pending, received, queue, waiters, calls, i);
      HydratedSource(t, records, group, received[i := response], disk, i, HydrateRow(t, records[i], response));
    }

    /** A completed future leaves the pool and its record's row is stored, whatever the
        response; the record's waiters are then nobody's. */
    method Land(j: nat) returns (i: nat, ws: seq<nat>, row: Row, response: Response)
      requires Valid() && j < |inFlight|
      modifies this`results, this`disk, this`trail, this`counts, this`attempted, this`waiters, this`inFlight,
               this`place,
               this`received
      ensures Durable() && Counted() && Pool() && Placed(ws, i) && NoRefetch() && Origins() && Replies() && Frugality()
      ensures i !in old(received) && received == old(received)[i := response]
      ensures forall w | w in ws :: Follows(group, pending, w, i)
      ensures i < |records| && results == old(results)[records[i].key := row]
      ensures |inFlight| == |old(inFlight)| - 1 && old(trail) <= trail && Keeps(old(disk), disk)
      ensures Tally(records, results, Pending) == old(Tally(records, results, Pending)) - 1
      ensures row == HydrateRow(t, records[i], response)
      ensures i == old(inFlight)[j] && ws == if i in old(waiters) then old(waiters)[i] else []
    {
      hide DurableRows, Counts, Legit, HydrateRow, Located, Tally, Keeps, Unique, PrepareWithoutRequest, SourcedAll,
           Source, Frugal,
           Answered, Follows, Pooled;
      PoolShrinks(t, records, workers, place, inFlight, calls, j);
      LandLocated(|records|, place, queue, waiters, inFlight, j);
      i := inFlight[j];
      response := *;
      row := HydrateRow(t, records[i], response);
      HydratedIsLegit(t, records[i], response);
      Received(i, response);
      received := received[i := response];
      inFlight := inFlight[..j] + inFlight[j + 1..];
      FinishRecord(i, row);
      ws := if i in waiters then waiters[i] else [];
      waiters := waiters - {i};
    }

    /** A waiter of `left`: either the reused row is explained, or its own request is needed. */
    lemma Serving(left: nat, i: nat)
      requires Durable() && Pool() && Replies() && Frugality() && Settled(records, results, place)
      requires left < |records| && i < |records| && left in received && Follows(group, pending, i, left)
      requires place[left] == Finished && place[i].Waiting?
      ensures PrepareWithoutRequest(t, records[i]) == None
              && Pooled(t, records, workers, place[i := Queued], inFlight, calls)
      ensures Answered(place[i := Queued], calls, received) && Answered(place[i := Finished], calls, received)
      ensures var h := HydrationOf(t, records, received, left);
              if Serves(t, records, received, left, i)
              then Source(t, records, group, received, disk[records[i].key := ReuseRow(records[i], records[left], h)],
                          i)
              else Frugal(t, records, group, pending, received, queue + [i], waiters, calls)
    {
      hide DurableRows, Pooled, Source, Frugal, Answered, Follows, HydrationOf, ReuseRow, PrepareWithoutRequest, Serves;
      NotCalled(t, records, workers, place, inFlight, calls, i);
      RequestNeeded(t, records, workers, place, inFlight, calls, i);
      ServeAnswered(place, calls, received, i, Queued);
      ServeAnswered(place, calls, received, i, Finished);
      if Serves(t, records, received, left, i) {
        FinishedOnDisk(t, records, results, disk, trail, place, left);
        SameGroup(group, pending, i, left);
        ReusedSource(t, records, group, received, disk, left, i,
                     ReuseRow(records[i], records[left], HydrationOf(t, records, received, left)));
      } else {
        QueueFrugal(t, records, group, pending, received, queue, waiters, calls, left, i);
      }
    }

    /** The turn of the first orphan of `left`. */
    method Serve(left: nat, ws: seq<nat>, h: Hydration, share: bool)
      requires Durable() && Counted() && Pool() && Placed(ws, left) && left < |records| && NoRefetch()
      requires ws != [] && ws[0] < |records| && Origins() && Replies() && Frugality()
               && Follows(group, pending, ws[0], left)
      requires left in received && h == HydrationOf(t, records, received, left)
               && share == Shareable(t, records[left], h)
      modifies this`results, this`disk, this`trail, this`counts, this`attempted, this`queue, this`place
      ensures Durable() && Counted() && Pool() && Placed(ws[1..], left) && NoRefetch()
      ensures Origins() && Replies() && Frugality()
      ensures old(trail) <= trail && Keeps(old(disk), disk) && Keeps(old(results), results)
      ensures Tally(records, results, Pending) <= old(Tally(records, results, Pending))
      ensures if share && Shareable(t, records[ws[0]], h)
              then queue == old(queue)
                   && results == old(results)[records[ws[0]].key := ReuseRow(records[ws[0]], records[left], h)]
              else queue == old(queue) + [ws[0]] && results == old(results)
    {
      hide DurableRows, Counts, Legit, PrepareWithoutRequest, Shareable, ReuseRow, Located, Tally, Unique, SourcedAll,
           Source, Frugal,
           Answered, Follows, HydrationOf, Pooled;
      var i := ws[0];
      OrphanLocated(|records|, place, queue, waiters, inFlight, ws, left);
      OrphanPlaces(|records|, place, queue, waiters, inFlight, ws, left);
      Serving(left, i);
      assert Serves(t, records, received, left, i) <==> share && Shareable(t, records[i], h);
      if share && Shareable(t, records[i], h) {
        var row := ReuseRow(records[i], records[left], h);
        ReusedIsLegit(t, records[i], records[left], h);
        FinishRecord(i, row);
      } else {
        queue := queue + [i];
        place := place[i := Queued];
      }
    }

    /** Gives the orphans of `left` their turn: those the shared response proves get their
        row from it, the others go to the queue. */
    method Release(left: nat, ws: seq<nat>, h: Hydration, share: bool)
      requires Durable() && Counted() && Pool() && Placed(ws, left) && left < |records| && NoRefetch()
      requires Origins() && Replies() && Frugality() && forall w | w in ws :: Follows(group, pending, w, left)
      requires left in received && h == HydrationOf(t, records, received, left)
               && share == Shareable(t, records[left], h)
      modifies this`results, this`disk, this`trail, this`counts, this`attempted, this`queue, this`place
      ensures Valid() && old(trail) <= trail && Keeps(old(disk), disk) && Keeps(old(results), results)
      ensures Tally(records, results, Pending) <= old(Tally(records, results, Pending))
      ensures forall k | 0 <= k < |ws| ::
                ws[k] < |records|
                && if share && Shareable(t, records[ws[k]], h)
                   then records[ws[k]].key in results
                     && results[records[ws[k]].key] == ReuseRow(records[ws[k]], records[left], h)
                   else ws[k] in queue
    {
      hide DurableRows, Counts, Shareable, ReuseRow, Located, Tally, Unique, Settled, Pooled, SourcedAll, Frugal,
           Answered, Follows,
           HydrationOf;
      OrphansInRange(|records|, place, queue, waiters, inFlight, ws, left);
      assert ws[0..] == ws;
      for n := 0 to |ws|
        invariant Durable() && Counted() && Pool() && Placed(ws[n..], left) && NoRefetch()
        invariant Origins() && Replies() && Frugality()
        invariant old(trail) <= trail && Keeps(old(disk), disk) && Keeps(old(results), results)
        invariant Tally(records, results, Pending) <= old(Tally(records, results, Pending))
        invariant forall k | 0 <= k < n ::
                    if share && Shareable(t, records[ws[k]], h)
                    then records[ws[k]].key in results
                      && results[records[ws[k]].key] == ReuseRow(records[ws[k]], records[left], h)
                    else ws[k] in queue
      {
        assert ws[n..][0] == ws[n] && ws[n..][1..] == ws[n + 1..];
        assert ws[n] in ws;
        Serve(left, ws[n..], h, share);
      }
      assert ws[|ws|..] == [];
      NoOrphans(|records|, place, queue, waiters, inFlight, left);
    }

    /** One completion: the record gets the row of its response, and so does each of its waiters
        for which that response may be shared, just as if it had been fetched for the waiter;
        the other waiters are queued. */
    method Complete(j: nat) returns (i: nat, ws: seq<nat>, response: Response)
      requires Valid() && j < |inFlight|
      modifies this
      ensures Valid() && old(trail) <= trail && Keeps(old(disk), disk) && calls == old(calls) && pending == old(pending)
      ensures i !in old(received) && received == old(received)[i := response]
      ensures |inFlight| == |old(inFlight)| - 1
      ensures Tally(records, results, Pending) < old(Tally(records, results, Pending))
      ensures i == old(inFlight)[j] && i < |records| && ws == if i in old(waiters) then old(waiters)[i] else []
      ensures records[i].key in results && results[records[i].key] == HydrateRow(t, records[i], response)
      ensures forall k | 0 <= k < |ws| ::
                ws[k] < |records|
                && var h := HydrateRow(t, records[i], response).hydration;
                if CaptureOf(t, h, records[i].job) && CaptureOf(t, h, records[ws[k]].job)
                then records[ws[k]].key in results
                     && results[records[ws[k]].key] == ReuseRow(records[ws[k]], records[i], h)
                     && SameHydration(results[records[ws[k]].key], HydrateRow(t, records[ws[k]], response))
                else ws[k] in queue
    {
      hide Counts, Legit, LegitDisk, PrepareWithoutRequest, Shareable, ReuseRow, Located, Tally, Unique, HydrateRow,
           DurableRows, Pooled,
           SameHydration, SourcedAll, Frugal, Answered, Follows, CaptureOf;
      var row: Row;
      i, ws, row, response := Land(j);
      var share := Shareable(t, records[i], row.hydration);
      Release(i, ws, row.hydration, share);
      ShareableExactly(t, records[i], row.hydration);
      forall k | 0 <= k < |ws|
        ensures ws[k] < |records| && (Shareable(t, records[ws[k]], row.hydration) <==>
                                      CaptureOf(t, row.hydration, records[ws[k]].job))
      {
        ShareableExactly(t, records[ws[k]], row.hydration);
      }
      forall k | 0 <= k < |ws| && share && Shareable(t, records[ws[k]], row.hydration)
        ensures SameHydration(ReuseRow(records[ws[k]], records[i], row.hydration),
                              HydrateRow(t, records[ws[k]], response))
      {
        ReusedLikeFetched(t, records[ws[k]], records[i], response);
      }
    }

    /** The summary's `stage_complete`, read off the incremental counters. */
    method StageComplete() returns (complete: bool)
      requires Valid()
      ensures complete <==> forall i | 0 <= i < |records| :: records[i].key in results
    {
      complete := Pending !in counts;
      TalliesCoverRecords(records, results);
      forall i | 0 <= i < |records| && records[i].key in results
        ensures OutcomeOf(results, records[i]) != Pending
      {
        LegitRowsAreSound(t, records[i], disk[records[i].key]);
      }
    }

    lemma PoolHasRoom()
      requires Pool()
      ensures workers > 0
    {
    }

    /** The main loop: it ends with nothing queued or in flight. */
    method Drain()
      requires Valid()
      modifies this
      ensures Valid() && queue == [] && inFlight == []
      ensures old(trail) <= trail && Keeps(old(disk), disk) && old(calls) <= calls && pending == old(pending)
      ensures forall i | i in old(received) :: i in received && received[i] == old(received)[i]
    {
      hide DurableRows, Counts, Located, Tally, SourcedAll, Answered, Frugal, Pooled, Settled, Needed;
      while true
        invariant Valid() && old(trail) <= trail && Keeps(old(disk), disk) && old(calls) <= calls
                  && pending == old(pending)
        invariant forall i | i in old(received) :: i in received && received[i] == old(received)[i]
        decreases Tally(records, results, Pending)
      {
        Fill();
        PoolHasRoom();
        if inFlight == [] { break; }
        var more := true;
        ghost var before := Tally(records, results, Pending);
        while more && inFlight != []
          invariant Valid() && old(trail) <= trail && Keeps(old(disk), disk) && old(calls) <= calls
                    && pending == old(pending)
          invariant forall i | i in old(received) :: i in received && received[i] == old(received)[i]
          invariant Tally(records, results, Pending) <= before
          invariant more || Tally(records, results, Pending) < before
          invariant inFlight == [] ==> Tally(records, results, Pending) < before
          decreases |inFlight|
        {
          var j :| 0 <= j < |inFlight|;
          var _, _, _ := Complete(j);
          more := *;
        }
      }
    }

    /** The run.  It ends, and when it does every record has exactly one row, in memory and on
        disk, and the job lines are written without a missing key.  The calls are those that
        were answered, each needed; and every row that was not found on disk comes from one of
        their responses, as if that had been fetched for the record, unless none was needed. */
    method Run() returns (lines: seq<Row>)
      requires Valid()
      modifies this
      ensures Valid() && old(trail) <= trail && Keeps(old(disk), disk) && old(calls) <= calls && pending == old(pending)
      ensures |lines| == |records|
      ensures forall i | 0 <= i < |records| ::
                var key := records[i].key;
                key in results && key in disk && disk[key] == lines[i] && Legit(t, records[i], lines[i])
      ensures Unique(calls) && forall i | i in calls :: i < |records| && records[i].key !in old(trail)[0]
      ensures forall i :: i in received <==> i in calls
      ensures forall i | i in old(received) :: received[i] == old(received)[i]
      ensures forall i | i in calls :: Needed(t, records, group, pending, received, i)
      ensures forall i | 0 <= i < |records| && records[i].key !in old(trail)[0] ::
                Source(t, records, group, received, disk, i)
      ensures forall i | 0 <= i < |records| && records[i].key !in old(trail)[0]
              && PrepareWithoutRequest(t, records[i]) == None ::
                exists l: nat :: l in received && SameHydration(lines[i], HydrateRow(t, records[i], received[l]))
      ensures Explained(t, records, group, pending, received, calls, old(trail)[0], lines)
    {
      hide DurableRows, Counts, Located, Legit, PrepareWithoutRequest, Tally, SourcedAll, Source, Answered, Frugal,
           Pooled, Needed,
           SameHydration, HydrateRow, Explained;
      Drain();
      Drained(|records|, place, queue, waiters, inFlight);
      AllWritten();
      AllCredited();
      lines := WriteJobs();
      AllExplained(lines);
    }

    /** One line for each record, in order. */
    method WriteJobs() returns (lines: seq<Row>)
      requires forall i | 0 <= i < |records| :: records[i].key in results
      ensures |lines| == |records| && forall i | 0 <= i < |records| :: lines[i] == results[records[i].key]
    {
      lines := [];
      for i := 0 to |records|
        invariant |lines| == i && forall k | 0 <= k < i :: lines[k] == results[records[k].key]
      {
        lines := lines + [results[records[i].key]];
      }
    }

    lemma AllExplained(lines: seq<Row>)
      requires trail != [] && forall i | 0 <= i < |records| :: records[i].key in disk
      requires |lines| == |records| && forall i | 0 <= i < |records| :: lines[i] == disk[records[i].key]
      requires forall i :: i in received <==> i in calls
      requires forall i | i in calls :: Needed(t, records, group, pending, received, i)
      requires forall i | i in calls :: i < |records| && PrepareWithoutRequest(t, records[i]) == None
      requires forall i | 0 <= i < |records| && records[i].key !in trail[0] ::
                 Source(t, records, group, received, disk, i)
      ensures Explained(t, records, group, pending, received, calls, trail[0], lines)
    {
      hide Source, Needed, Spared, ReuseProved, PrepareWithoutRequest;
      forall i | 0 <= i < |records| && records[i].key !in trail[0]
        ensures lines[i].reusedFrom.Some? ==> ReuseProved(t, records, group, received, i, lines[i])
        ensures lines[i].requestMade <==>
                  i in calls && (received[i].Returned? ==> received[i].hydration.requestMade != Some(false))
      {
        RequestSaid(t, records, group, received, disk, i);
        if lines[i].reusedFrom.Some? {
          ReusedIsProved(t, records, group, received, disk, i);
        }
      }
      forall i | i in pending && i < |records| && Spared(t, records, group, pending, received, i) ensures i !in calls {
        SparedIsNotNeeded(t, records, group, pending, received, i);
      }
    }

    lemma AllCredited()
      requires Durable() && Pool() && NoRefetch() && Origins() && Replies() && Frugality()
      requires forall i | 0 <= i < |records| :: place[i] == Finished && records[i].key in disk
      ensures trail != [] && Unique(calls) && forall i | i in calls :: i < |records| && records[i].key !in trail[0]
      ensures forall i :: i in received <==> i in calls
      ensures forall i | i in calls :: Needed(t, records, group, pending, received, i)
      ensures forall i | i in calls :: i < |records| && PrepareWithoutRequest(t, records[i]) == None
      ensures forall i | 0 <= i < |records| && records[i].key !in trail[0] ::
                Source(t, records, group, received, disk, i)
      ensures forall i | 0 <= i < |records| && records[i].key !in trail[0]
                         && PrepareWithoutRequest(t, records[i]) == None ::
                exists l: nat ::
                  l in received && SameHydration(disk[records[i].key], HydrateRow(t, records[i], received[l]))
    {
      forall i | 0 <= i < |records| && records[i].key !in trail[0] && PrepareWithoutRequest(t, records[i]) == None
        ensures exists l: nat ::
                  l in received && SameHydration(disk[records[i].key], HydrateRow(t, records[i], received[l]))
      {
        SourceIsFetched(t, records, group, received, disk, i);
      }
      hide Source, Needed, Follows, PrepareWithoutRequest, Legit;
      assert Sourced(t, records, group, received, trail[0], trail[|trail| - 1]);
    }

    lemma AllWritten()
      requires Durable() && forall i | 0 <= i < |records| :: records[i].key in results
      ensures forall i | 0 <= i < |records| ::
                var key := records[i].key;
                key in disk && disk[key] == results[key] && Legit(t, records[i], results[key])
    {
    }
  }

  /** With nothing queued or in flight nobody is left waiting. */
  lemma Drained(n: nat, place: seq<Place>, queue: seq<nat>, waiters: map<nat, seq<nat>>, inFlight: seq<nat>)
    requires Located(n, place, queue, waiters, inFlight, [], 0) && queue == [] && inFlight == []
    ensures forall i | 0 <= i < n :: place[i] == Finished
  {
    assert forall i: nat | i < n :: (i in queue <==> place[i] == Queued) && (i in inFlight <==> place[i] == Flying);
    assert forall l: nat :: l !in waiters;
  }

  // ----- crashes -----

  /** What a run found on disk, what it left there, and the responses whose rows are there. */
  datatype Log = Log(first: Rows, last: Rows, received: Responses)

  /** Every row the run added comes from one of its responses, and no record it asked about had
      a row before. */
  ghost predicate Honest(t: Texts, records: seq<Record>, group: nat -> Option<string>, log: Log) {
    && Sourced(t, records, group, log.received, log.first, log.last)
    && forall i | i in log.received :: i < |records| && records[i].key !in log.first && records[i].key in log.last
  }

  function Written(records: seq<Record>, received: Responses, d: Rows): Responses {
    map l | l in received && l < |records| && records[l].key in d :: received[l]
  }

  /** The responses whose rows are on a disk account for the rows there. */
  lemma WrittenSources(t: Texts, records: seq<Record>, group: nat -> Option<string>, received: Responses, first: Rows,
                       d: Rows)
    requires Sourced(t, records, group, received, first, d)
    ensures Sourced(t, records, group, Written(records, received, d), first, d)
  {
    hide HydrateRow, PrepareWithoutRequest, ReuseRow, Shareable;
    var written := Written(records, received, d);
    forall i | 0 <= i < |records| && records[i].key in d && records[i].key !in first
      ensures Source(t, records, group, written, d, i)
    {
      assert Source(t, records, group, received, d, i);
      if i !in received && exists l: nat :: Reused(t, records, group, received, d, l, i) {
        var l: nat :| Reused(t, records, group, received, d, l, i);
        assert Reused(t, records, group, written, d, l, i);
      }
    }
  }

  /** A run from a disk, to its end or to a crash at some moment of it. */
  method RunFrom(t: Texts, records: seq<Record>, workers: nat, group: nat -> Option<string>, disk: Rows,
                 crash: Option<nat>)
    returns (lines: seq<Row>, left: Rows, ghost log: Log)
    requires DistinctKeys(records) && LegitDisk(t, records, disk) && 1 <= workers <= 12
    ensures LegitDisk(t, records, left) && Keeps(disk, left)
    ensures log.first == disk && log.last == left && Honest(t, records, group, log)
    ensures crash == None ==> |lines| == |records| && forall i | 0 <= i < |records| ::
              records[i].key in left && left[records[i].key] == lines[i] && Legit(t, records[i], lines[i])
  {
    hide DurableRows, Legit, LegitDisk, Unique, DistinctKeys, Needed, Source, Sourced, SourcedAll, Answered, Frugal,
         Counts, Located,
         Settled, Pooled, GroupedAs, IsPending, Keeps;
    OwnCheckpointsLoad(t, records, disk);
    var saved := LoadSaved(records, disk);
    var run := new Scheduler.Resume(t, records, workers, group, disk, saved.value);
    lines := run.Run();
    var c := match crash case None => |run.trail| - 1 case Some(k) => k % |run.trail|;
    left := run.trail[c];
    TrailIsLegit(t, records, run.results, run.disk, run.trail, c);
    TrailKeeps(t, records, group, run.received, run.results, run.disk, run.trail, c);
    WrittenSources(t, records, group, run.received, disk, left);
    log := Log(disk, left, Written(records, run.received, left));
  }

  lemma TrailKeeps(t: Texts, records: seq<Record>, group: nat -> Option<string>, received: Responses, results: Rows,
                   disk: Rows,
                   trail: seq<Rows>, c: nat)
    requires DurableRows(t, records, results, disk, trail) && SourcedAll(t, records, group, received, trail)
             && c < |trail|
    ensures Keeps(trail[0], trail[c]) && Sourced(t, records, group, received, trail[0], trail[c])
    ensures c == |trail| - 1 ==> trail[c] == disk
  {
    hide LegitDisk, Sourced, Keeps;
  }

  /** The row is on the disk the run left but not on the one it found, and comes from one of
      its responses. */
  ghost predicate Credits(t: Texts, records: seq<Record>, group: nat -> Option<string>, log: Log, i: nat, row: Row)
    requires i < |records|
  {
    var key := records[i].key;
    && key !in log.first && key in log.last && log.last[key] == row
      && Source(t, records, group, log.received, log.last, i)
  }

  ghost predicate Credited(t: Texts, records: seq<Record>, group: nat -> Option<string>, logs: seq<Log>, disk: Rows) {
    forall i | 0 <= i < |records| && records[i].key in disk ::
      exists n :: 0 <= n < |logs| && Credits(t, records, group, logs[n], i, disk[records[i].key])
  }

  lemma CreditedNext(t: Texts, records: seq<Record>, group: nat -> Option<string>, logs: seq<Log>, log: Log)
    requires Credited(t, records, group, logs, log.first) && Honest(t, records, group, log)
             && Keeps(log.first, log.last)
    ensures Credited(t, records, group, logs + [log], log.last)
  {
    hide Source;
    forall i | 0 <= i < |records| && records[i].key in log.last
      ensures exists n :: 0 <= n <= |logs| && Credits(t, records, group, (logs + [log])[n], i, log.last[records[i].key])
    {
      if records[i].key in log.first {
        var n :| 0 <= n < |logs| && Credits(t, records, group, logs[n], i, log.first[records[i].key]);
        assert (logs + [log])[n] == logs[n];
      } else {
        assert (logs + [log])[|logs|] == log;
      }
    }
  }

  /** Runs with a crash after each but the last: whatever row had reached the disk when a run
      crashed is the row the last one reports, the last one has a row for every record, and
      each row comes from a response received by the run that stored it. */
  method Campaign(t: Texts, records: seq<Record>, workers: nat, group: nat -> Option<string>, crashes: seq<nat>)
    returns (lines: seq<Row>, survivors: seq<Rows>, ghost logs: seq<Log>)
    requires DistinctKeys(records) && 1 <= workers <= 12
    ensures |lines| == |records| && forall i | 0 <= i < |records| :: Legit(t, records[i], lines[i])
    ensures |survivors| == |crashes|
    ensures forall c, i | 0 <= c < |survivors| && 0 <= i < |records| && records[i].key in survivors[c] ::
              survivors[c][records[i].key] == lines[i]
    ensures |logs| == |crashes| + 1 && logs[0].first == map[]
    ensures forall n | 0 <= n < |logs| :: Honest(t, records, group, logs[n])
    ensures forall n | 0 <= n < |crashes| :: logs[n].last == survivors[n] == logs[n + 1].first
    ensures forall i | 0 <= i < |records| :: exists n ::
              0 <= n < |logs| && Credits(t, records, group, logs[n], i, lines[i])
  {
    hide Legit, LegitDisk, DistinctKeys, Honest, Credits;
    var disk: Rows := map[];
    lines, survivors, logs := [], [], [];
    EmptyDiskIsLegit(t, records);
    for n := 0 to |crashes|
      invariant LegitDisk(t, records, disk) && |survivors| == |logs| == n
      invariant forall c | 0 <= c < n :: Keeps(survivors[c], disk) && Honest(t, records, group, logs[c])
      invariant forall c | 0 <= c < n :: logs[c].last == survivors[c]
      invariant forall c, d | 0 <= c && d == c + 1 < n :: survivors[c] == logs[d].first
      invariant disk == (if n == 0 then map[] else survivors[n - 1]) && (n > 0 ==> logs[0].first == map[])
      invariant Credited(t, records, group, logs, disk)
    {
      ghost var log: Log;
      var left: Rows;
      lines, left, log := RunFrom(t, records, workers, group, disk, Some(crashes[n]));
      CreditedNext(t, records, group, logs, log);
      disk, survivors, logs := left, survivors + [left], logs + [log];
    }
    ghost var log: Log;
    var left: Rows;
    lines, left, log := RunFrom(t, records, workers, group, disk, None);
    CreditedNext(t, records, group, logs, log);
    logs := logs + [log];
  }

  lemma EmptyDiskIsLegit(t: Texts, records: seq<Record>)
    ensures LegitDisk(t, records, map[])
  {
  }

  lemma ReusedIsLegit(t: Texts, r: Record, representative: Record, h: Hydration)
    requires PrepareWithoutRequest(t, r) == None && Shareable(t, r, h)
    ensures Legit(t, r, ReuseRow(r, representative, h))
  {
  }

  lemma OrphansInRange(n: nat, place: seq<Place>, queue: seq<nat>, waiters: map<nat, seq<nat>>, inFlight: seq<nat>,
                       orphans: seq<nat>, left: nat)
    requires Located(n, place, queue, waiters, inFlight, orphans, left)
    ensures forall k | 0 <= k < |orphans| :: orphans[k] < n
  {
    assert forall k | 0 <= k < |orphans| :: orphans[k] in orphans;
  }

  lemma NoOrphans(n: nat, place: seq<Place>, queue: seq<nat>, waiters: map<nat, seq<nat>>, inFlight: seq<nat>,
                  left: nat)
    requires Located(n, place, queue, waiters, inFlight, [], left)
    ensures Located(n, place, queue, waiters, inFlight, [], 0)
  {
  }

  lemma PreparedIsLegit(t: Texts, r: Record, row: Row)
    requires PrepareWithoutRequest(t, r) == Some(row)
    ensures Legit(t, r, row)
  {
  }

  lemma HydratedIsLegit(t: Texts, r: Record, response: Response)
    requires PrepareWithoutRequest(t, r) == None
    ensures Legit(t, r, HydrateRow(t, r, response))
  {
  }

  lemma RemoveAt(s: seq<nat>, j: nat)
    requires Unique(s) && j < |s|
    ensures var rest := s[..j] + s[j + 1..];
            Unique(rest) && forall i :: i in rest <==> i in s && i != s[j]
  {
    var rest := s[..j] + s[j + 1..];
    forall i ensures i in rest <==> i in s && i != s[j] {
      if i in s && i != s[j] {
        var k :| 0 <= k < |s| && s[k] == i;
        assert rest[if k < j then k else k - 1] == i;
      }
    }
  }

  lemma {:induction false} PreviousCounted(records: seq<Record>, results: Rows, i: nat)
    requires i < |records|
    ensures Tally(records, results, OutcomeOf(results, records[i])) > 0
  {
    var n := |records| - 1;
    if i < n { PreviousCounted(records[..n], results, i); }
  }
}
