/** Repair of a scoring incident: originals and proposals go to an append-only journal, and
    a row is replaced only by compare-and-swap against rows that other writers may change.

    Hashes are treated as injective, so a journal key is the metadata it is the hash of. */
module ScoreRepair {
  import opened Wrappers

  datatype Job = Job(id: string, matchScore: Option<int>, updatedAt: int, content: string)

  datatype Analysis = Analysis(matchScore: Option<int>, updatedAt: int, content: string)

  /** A job row and its analysis row, read together. */
  datatype Snapshot = Snapshot(job: Job, analysis: Analysis)

  datatype Candidate = Candidate(row: Snapshot, company: string)

  /** The planned rows, the model input, and what they are scored against. */
  datatype Key = Key(candidate: Candidate, target: string)

  datatype Record = Record(jobId: string, complete: bool, matchScore: Option<int>, content: string)

  /** What a model call comes back with: an exception, or a record, possibly with one of the
      provider errors that end the run after the current wave. */
  datatype Answer = Raised | Answered(record: Record, providerStop: bool)

  datatype Event =
    | Original(key: Key, row: Snapshot)
    | Proposal(key: Key, record: Record)
    | CallFailed(key: Key)
    | Applied(key: Key)
    | Skipped(key: Key)

  /** A replacement that was committed, with the length of the journal at that moment. */
  datatype Write = Write(key: Key, before: Snapshot, record: Record, at: nat)

  /** A request sent to the model for `plan[index]`, with the length of the journal then. */
  datatype Call = Call(index: nat, key: Key, at: nat)

  /** What survives a crash, and the history of what was done to it. */
  datatype World = World(rows: map<string, Snapshot>, log: seq<Event>, calls: seq<Call>, writes: seq<Write>)

  predicate Validated(r: Record) {
    r.complete && r.matchScore.Some?
  }

  predicate Usable(a: Answer) {
    a.Answered? && Validated(a.record)
  }

  function Replaced(row: Snapshot, r: Record, now: int): Snapshot {
    Snapshot(row.job.(matchScore := r.matchScore, updatedAt := now), Analysis(r.matchScore, now, r.content))
  }

  // ----- the protocol -----

  predicate HasOriginal(log: seq<Event>, key: Key) {
    Original(key, key.candidate.row) in log
  }

  /** Keys with a journaled proposal. */
  function Proposed(log: seq<Event>): set<Key> {
    set e | e in log && e.Proposal? :: e.key
  }

  /** The journal may grow by any event whose rows and proposals are honest. */
  predicate Appendable(log: seq<Event>, e: Event) {
    && (e.Original? ==> e.row == e.key.candidate.row)
    && (e.Proposal? ==> HasOriginal(log, e.key) && Validated(e.record))
  }

  /** Compare and swap: the row is the planned snapshot and the proposal is journaled. */
  predicate Replacing(w: World, w': World, key: Key, r: Record, now: int) {
    var id := key.candidate.row.job.id;
    && Proposal(key, r) in w.log && r.jobId == id
    && id in w.rows && w.rows[id] == key.candidate.row
    && w' == w.(rows := w.rows[id := Replaced(w.rows[id], r, now)],
                writes := w.writes + [Write(key, w.rows[id], r, |w.log|)])
  }

  /** One durable action: another writer changes rows at will, the journal grows by a line,
      a request leaves for the model, or a row is replaced under its lock. */
  ghost predicate Step(w: World, w': World) {
    || w' == w.(rows := w'.rows)
    || (exists e :: Appendable(w.log, e) && w' == w.(log := w.log + [e]))
    || (exists c: Call :: c.at == |w.log| && HasOriginal(w.log, c.key) && w' == w.(calls := w.calls + [c]))
    || (exists key, r, now :: Replacing(w, w', key, r, now))
  }

  ghost predicate Run(run: seq<World>) {
    run != [] && forall k | 0 <= k < |run| - 1 :: Step(run[k], run[k + 1])
  }

  /** The journal held the exact row, and after it the proposal, when the row was replaced. */
  ghost predicate Backed(log: seq<Event>, w: Write) {
    && w.at <= |log|
    && w.before == w.key.candidate.row
    && w.record.jobId == w.before.job.id && Validated(w.record)
    && exists i, j :: 0 <= i < j < w.at && log[i] == Original(w.key, w.before) && log[j] == Proposal(w.key, w.record)
  }

  /** Originals are the planned rows; every proposal is validated and follows its original. */
  ghost predicate Founded(log: seq<Event>) {
    forall j | 0 <= j < |log| :: Appendable(log[..j], log[j])
  }

  ghost predicate Safe(w: World) {
    && Founded(w.log)
    && (forall k | 0 <= k < |w.writes| :: Backed(w.log, w.writes[k]))
    && (forall k | 0 <= k < |w.calls| ::
          w.calls[k].at <= |w.log| && HasOriginal(w.log[..w.calls[k].at], w.calls[k].key))
  }

  lemma AppendKeepsSafe(w: World, e: Event)
    requires Safe(w) && Appendable(w.log, e)
    ensures Safe(w.(log := w.log + [e]))
  {
    var log := w.log + [e];
    forall j | 0 <= j < |log| ensures Appendable(log[..j], log[j]) {
      assert log[..j] == w.log[..j];
      if j == |w.log| { assert log[..j] == w.log; }
    }
    forall k | 0 <= k < |w.writes| ensures Backed(log, w.writes[k]) {
      var x := w.writes[k];
      var i, j :| 0 <= i < j < x.at && w.log[i] == Original(x.key, x.before) && w.log[j] == Proposal(x.key, x.record);
      assert log[i] == w.log[i] && log[j] == w.log[j];
    }
    forall k | 0 <= k < |w.calls| ensures HasOriginal(log[..w.calls[k].at], w.calls[k].key) {
      assert log[..w.calls[k].at] == w.log[..w.calls[k].at];
    }
  }

  lemma ReplaceKeepsSafe(w: World, w': World, key: Key, r: Record, now: int)
    requires Safe(w) && Replacing(w, w', key, r, now)
    ensures Safe(w')
  {
    var j :| 0 <= j < |w.log| && w.log[j] == Proposal(key, r);
    assert Appendable(w.log[..j], w.log[j]);
    var i :| 0 <= i < j && w.log[..j][i] == Original(key, key.candidate.row);
    assert w.log[i] == Original(key, key.candidate.row);
  }

  /** In every run, whatever other writers do and wherever crashes fall: a row is replaced
      only while it equals the planned snapshot, and only after the journal durably holds
      that exact original and, later, the validated proposal. */
  lemma {:induction false} RunIsSafe(run: seq<World>)
    requires Run(run) && Safe(run[0])
    ensures forall k | 0 <= k < |run| :: Safe(run[k])
  {
    if |run| > 1 {
      var n := |run| - 1;
      RunIsSafe(run[..n]);
      assert run[..n][n - 1] == run[n - 1];
      var w, w' := run[n - 1], run[n];
      assert Step(w, w');
      if w'.log != w.log {
        var e :| Appendable(w.log, e) && w' == w.(log := w.log + [e]);
        AppendKeepsSafe(w, e);
      } else if w'.writes != w.writes {
        var key, r, now :| Replacing(w, w', key, r, now);
        ReplaceKeepsSafe(w, w', key, r, now);
      } else if w'.calls != w.calls {
        var c: Call :| c.at == |w.log| && HasOriginal(w.log, c.key) && w' == w.(calls := w.calls + [c]);
        assert w.log[..c.at] == w.log;
      }
      forall k | 0 <= k < |run| ensures Safe(run[k]) {
        if k < n { assert run[..n][k] == run[k]; }
      }
    }
  }

  // ----- one session, and many with crashes between them -----

  /** What replaying the journal gives: the keys with an original, and for each key with a
      proposal the last one. */
  function Originals(log: seq<Event>): set<Key> {
    set e | e in log && e.Original? :: e.key
  }

  function Proposals(log: seq<Event>): (ps: map<Key, Record>)
    ensures forall k :: k in ps ==> Proposal(k, ps[k]) in log
    ensures forall e | e in log && e.Proposal? :: e.key in ps
  {
    if log == [] then map[]
    else
      var last := log[|log| - 1];
      var ps := Proposals(log[..|log| - 1]);
      assert log == log[..|log| - 1] + [last];
      if last.Proposal? then ps[last.key := last.record] else ps
  }

  /** The index of the proposals has exactly the keys with a journaled proposal. */
  lemma ProposalKeys(log: seq<Event>)
    ensures Proposals(log).Keys == Proposed(log)
  {
  }

  lemma OriginalIsExact(log: seq<Event>, key: Key)
    requires Founded(log) && key in Originals(log)
    ensures HasOriginal(log, key)
  {
    var j :| 0 <= j < |log| && log[j].Original? && log[j].key == key;
    assert Appendable(log[..j], log[j]);
  }

  lemma IndexesGrow(log: seq<Event>, e: Event)
    ensures Proposed(log + [e]) == Proposed(log) + if e.Proposal? then {e.key} else {}
    ensures Originals(log + [e]) == Originals(log) + if e.Original? then {e.key} else {}
  {
    assert forall x :: x in log + [e] <==> x in log || x == e;
  }

  lemma ProposalsNext(log: seq<Event>, e: Event)
    ensures Proposals(log + [e]) == if e.Proposal? then Proposals(log)[e.key := e.record] else Proposals(log)
  {
    assert (log + [e])[..|log|] == log;
  }

  /** The index holds journaled, validated proposals only. */
  ghost predicate Held(proposals: map<Key, Record>, log: seq<Event>) {
    forall k | k in proposals :: Proposal(k, proposals[k]) in log && Validated(proposals[k])
  }

  lemma HeldLater(proposals: map<Key, Record>, log: seq<Event>, log': seq<Event>)
    requires Held(proposals, log) && log <= log'
    ensures Held(proposals, log')
  {
  }

  lemma EmptyIndexes()
    ensures Originals([]) == {} && Proposals([]) == map[]
  {
  }

  function KeyOf(plan: seq<Candidate>, target: string, i: nat): Key
    requires i < |plan|
  {
    Key(plan[i], target)
  }

  /** Where the wave of the `i`-th candidate begins. */
  function WaveStart(workers: nat, i: nat): (start: nat)
    requires workers > 0
    ensures start <= i < start + workers
  {
    if i < workers then 0 else workers + WaveStart(workers, i - workers)
  }

  /** Waves begin at the multiples of the number of workers. */
  lemma {:induction false} WavesAreEqual(workers: nat, i: nat) returns (wave: nat)
    requires workers > 0
    ensures WaveStart(workers, i) == wave * workers <= i < (wave + 1) * workers
    decreases i
  {
    if i < workers {
      wave := 0;
    } else {
      var before := WavesAreEqual(workers, i - workers);
      wave := before + 1;
    }
  }

  lemma {:induction false} SameWave(workers: nat, offset: nat, i: nat)
    requires workers > 0 && WaveStart(workers, offset) == offset
    requires offset <= i <= offset + workers
    ensures WaveStart(workers, i) == if i < offset + workers then offset else i
    decreases offset
  {
    if offset >= workers { SameWave(workers, offset - workers, i - workers); }
  }

  function WaveEnd(plan: seq<Candidate>, workers: nat, i: nat): nat
    requires workers > 0 && i < |plan|
  {
    if WaveStart(workers, i) + workers < |plan| then WaveStart(workers, i) + workers else |plan|
  }

  /** Within a wave one future is kept per key: that of the last candidate with it. */
  function LastWithKey(plan: seq<Candidate>, target: string, i: nat, end: nat): (j: nat)
    requires i < end <= |plan|
    ensures i <= j < end && KeyOf(plan, target, j) == KeyOf(plan, target, i)
    ensures forall k | j < k < end :: KeyOf(plan, target, k) != KeyOf(plan, target, i)
    decreases end
  {
    if KeyOf(plan, target, end - 1) == KeyOf(plan, target, i) then end - 1 else LastWithKey(plan, target, i, end - 1)
  }

  function AnswerFor(plan: seq<Candidate>, target: string, workers: nat, answers: nat -> Answer, i: nat): Answer
    requires workers > 0 && i < |plan|
  {
    answers(LastWithKey(plan, target, i, WaveEnd(plan, workers, i)))
  }

  /** The record a candidate is given: its journaled proposal, or a validated answer. */
  function RecordFor(plan: seq<Candidate>, target: string, workers: nat, proposals: map<Key, Record>,
                     answers: nat -> Answer, i: nat): Option<Record>
    requires workers > 0 && i < |plan|
  {
    var key, answer := KeyOf(plan, target, i), AnswerFor(plan, target, workers, answers, i);
    if key in proposals then Some(proposals[key]) else if Usable(answer) then Some(answer.record) else None
  }

  /** Keys whose proposals this session journals while it works through the first `n`
      candidates; `known` are those the journal held when it was opened. */
  function Journaled(plan: seq<Candidate>, target: string, workers: nat, known: set<Key>,
                     answers: nat -> Answer, n: nat): (ks: set<Key>)
    requires workers > 0 && n <= |plan|
  {
    if n == 0 then {}
    else
      var ks := Journaled(plan, target, workers, known, answers, n - 1);
      var key := KeyOf(plan, target, n - 1);
      if key !in known && Usable(AnswerFor(plan, target, workers, answers, n - 1)) then ks + {key} else ks
  }

  /** Every call from `from` on is for a planned candidate the journal did not know when it
      was opened, and finds its key proposed exactly if this session proposed it in an
      earlier wave. */
  ghost predicate CallsMatch(plan: seq<Candidate>, target: string, workers: nat, known: set<Key>,
                             answers: nat -> Answer, calls: seq<Call>, log: seq<Event>, from: nat)
    requires workers > 0
  {
    forall k | from <= k < |calls| ::
      var c := calls[k];
      && c.index < |plan| && c.key == KeyOf(plan, target, c.index) && c.at <= |log|
      && c.key !in known
      && (c.key in Proposed(log[..c.at]) <==>
            c.key in Journaled(plan, target, workers, known, answers, WaveStart(workers, c.index)))
  }

  lemma JournaledNext(plan: seq<Candidate>, target: string, workers: nat, known: set<Key>,
                      answers: nat -> Answer, i: nat)
    requires workers > 0 && i < |plan|
    ensures var key := KeyOf(plan, target, i);
            Journaled(plan, target, workers, known, answers, i + 1) ==
              Journaled(plan, target, workers, known, answers, i) +
                if key !in known && Usable(AnswerFor(plan, target, workers, answers, i)) then {key} else {}
  {
  }

  lemma NothingYet(plan: seq<Candidate>, target: string, workers: nat, known: set<Key>,
                   answers: nat -> Answer, calls: seq<Call>, log: seq<Event>)
    requires workers > 0
    ensures Journaled(plan, target, workers, known, answers, 0) == {} && WaveStart(workers, 0) == 0
    ensures CallsMatch(plan, target, workers, known, answers, calls, log, |calls|)
    ensures SentExactly(plan, target, known, calls, |calls|, 0)
  {
  }

  lemma CallsMatchLater(plan: seq<Candidate>, target: string, workers: nat, known: set<Key>,
                        answers: nat -> Answer, calls: seq<Call>, log: seq<Event>, log': seq<Event>, from: nat)
    requires workers > 0 && log <= log' && CallsMatch(plan, target, workers, known, answers, calls, log, from)
    ensures CallsMatch(plan, target, workers, known, answers, calls, log', from)
  {
    forall k | from <= k < |calls| ensures log'[..calls[k].at] == log[..calls[k].at] {
      assert calls[k].at <= |log|;
    }
  }

  /** The candidates among the first `n` that the journal did not know. */
  function Unknown(plan: seq<Candidate>, target: string, known: set<Key>, n: nat): seq<int>
    requires n <= |plan|
  {
    if n == 0 then [] else Unknown(plan, target, known, n - 1) + if KeyOf(plan, target, n - 1) in known then []
      else [n - 1]
  }

  lemma {:induction false} UnknownIn(plan: seq<Candidate>, target: string, known: set<Key>, n: nat, i: nat)
    requires n <= |plan|
    ensures i in Unknown(plan, target, known, n) <==> i < n && KeyOf(plan, target, i) !in known
  {
    if n > 0 {
      UnknownIn(plan, target, known, n - 1, i);
    }
  }

  function Indexes(calls: seq<Call>, from: nat): (r: seq<int>)
    requires from <= |calls|
    ensures |r| == |calls| - from
  {
    seq(|calls| - from, k requires 0 <= k < |calls| - from => calls[from + k].index)
  }

  /** From `from` on, exactly those are sent, each once and in order. */
  ghost predicate SentExactly(plan: seq<Candidate>, target: string, known: set<Key>, calls: seq<Call>, from: nat,
                              n: nat)
    requires n <= |plan|
  {
    from <= |calls| && Indexes(calls, from) == Unknown(plan, target, known, n)
  }

  lemma SentCount(plan: seq<Candidate>, target: string, known: set<Key>, calls: seq<Call>, from: nat, n: nat)
    requires n <= |plan| && SentExactly(plan, target, known, calls, from, n)
    ensures |calls| - from == |Unknown(plan, target, known, n)|
  {
  }

  lemma SentNext(plan: seq<Candidate>, target: string, known: set<Key>, calls: seq<Call>, from: nat, n: nat, c: Call)
    requires n < |plan| && SentExactly(plan, target, known, calls, from, n) && c.index == n
    ensures KeyOf(plan, target, n) !in known ==> SentExactly(plan, target, known, calls + [c], from, n + 1)
    ensures KeyOf(plan, target, n) in known ==> SentExactly(plan, target, known, calls, from, n + 1)
  {
    assert Indexes(calls + [c], from) == Indexes(calls, from) + [n];
  }

  datatype Counts = Counts(reused: nat, model: nat, failed: nat, applied: nat, skipped: nat, stops: nat)

  /** Every processed candidate ends in exactly one way, from exactly one kind of result. */
  predicate Accounted(c: Counts, processed: nat) {
    c.reused + c.model == processed == c.failed + c.applied + c.skipped
  }

  /** How a session ends: through the whole plan or a provider stop, or with the error that a
      result names another job. */
  datatype End = Finished | Mismatch

  /** All that a session depends on: its plan, what the journal held when it was opened, the
      answers of the model, the clock and what the other writers do. */
  datatype Script = Script(plan: seq<Candidate>, target: string, workers: nat, proposals: map<Key, Record>,
                           answers: nat -> Answer, clock: nat -> int,
                             others: (nat, map<string, Snapshot>) -> map<string, Snapshot>)

  /** The rows, the number of chances the others had to change them, and the counters. */
  datatype Progress = Progress(rows: map<string, Snapshot>, tick: nat, counts: Counts)

  const NONE := Counts(0, 0, 0, 0, 0, 0)

  function Given(x: Script, i: nat): Option<Record>
    requires x.workers > 0 && i < |x.plan|
  {
    RecordFor(x.plan, x.target, x.workers, x.proposals, x.answers, i)
  }

  /** The candidate's result names another job. */
  predicate Mismatched(x: Script, i: nat)
    requires x.workers > 0 && i < |x.plan|
  {
    Given(x, i).Some? && Given(x, i).value.jobId != x.plan[i].row.job.id
  }

  /** The candidate's answer is a provider error that ends the session after its wave. */
  predicate Stops(x: Script, i: nat)
    requires x.workers > 0 && i < |x.plan|
  {
    var answer := AnswerFor(x.plan, x.target, x.workers, x.answers, i);
    Given(x, i) == None && answer.Answered? && answer.providerStop
  }

  /** What becomes of one candidate: its record, journaled before or now, replaces the row iff
      the others have left the planned row in place; without a record nothing changes. */
  function After(x: Script, p: Progress, i: nat): Progress
    requires x.workers > 0 && i < |x.plan|
  {
    var row, key := x.plan[i].row, KeyOf(x.plan, x.target, i);
    var c := if key in x.proposals then p.counts.(reused := p.counts.reused + 1)
      else p.counts.(model := p.counts.model + 1);
    match Given(x, i)
    case None =>
      p.(counts := c.(failed := c.failed + 1, stops := c.stops + if Stops(x, i) then 1 else 0))
    case Some(record) =>
      var seen := x.others(p.tick, p.rows);
      if record.jobId != row.job.id then Progress(seen, p.tick + 1, c)
      else if row.job.id in seen && seen[row.job.id] == row then
        Progress(seen[row.job.id := Replaced(row, record, x.clock(p.tick))], p.tick + 1, c.(applied := c.applied + 1))
      else Progress(seen, p.tick + 1, c.(skipped := c.skipped + 1))
  }

  /** The lines one candidate adds to the journal: its proposal or failed call, unless its
      proposal is there already, and then what became of it. */
  function Lines(x: Script, p: Progress, i: nat): seq<Event>
    requires x.workers > 0 && i < |x.plan|
  {
    var row, key := x.plan[i].row, KeyOf(x.plan, x.target, i);
    match Given(x, i)
    case None => [CallFailed(key)]
    case Some(record) =>
      var seen := x.others(p.tick, p.rows);
      (if key in x.proposals then [] else [Proposal(key, record)])
      + if record.jobId != row.job.id then []
        else if row.job.id in seen && seen[row.job.id] == row then [Applied(key)]
        else [Skipped(key)]
  }

  function Through(x: Script, p: Progress, n: nat): Progress
    requires x.workers > 0 && n <= |x.plan|
  {
    if n == 0 then p else After(x, Through(x, p, n - 1), n - 1)
  }

  /** The counters account for every candidate, and there is a stop iff some answer was one. */
  lemma {:induction false} ThroughAccounted(x: Script, p: Progress, n: nat)
    requires x.workers > 0 && n <= |x.plan| && p.counts == NONE
    requires forall j | 0 <= j < n :: !Mismatched(x, j)
    ensures Accounted(Through(x, p, n).counts, n)
    ensures Through(x, p, n).counts.stops == 0 <==> forall j | 0 <= j < n :: !Stops(x, j)
  {
    hide RecordFor, AnswerFor;
    if n > 0 {
      ThroughAccounted(x, p, n - 1);
      AfterAccounted(x, Through(x, p, n - 1), n - 1);
    }
  }

  /** Exactly the candidates whose proposal the journal did not know count as model jobs. */
  lemma {:induction false} ModelJobsCounted(x: Script, p: Progress, n: nat)
    requires x.workers > 0 && n <= |x.plan| && p.counts == NONE
    ensures Through(x, p, n).counts.model == |Unknown(x.plan, x.target, x.proposals.Keys, n)|
  {
    hide RecordFor, AnswerFor;
    if n > 0 {
      ModelJobsCounted(x, p, n - 1);
    }
  }

  lemma AfterAccounted(x: Script, p: Progress, i: nat)
    requires x.workers > 0 && i < |x.plan| && !Mismatched(x, i) && Accounted(p.counts, i)
    ensures Accounted(After(x, p, i).counts, i + 1)
    ensures After(x, p, i).counts.stops == p.counts.stops + if Stops(x, i) then 1 else 0
  {
    hide RecordFor, AnswerFor, KeyOf;
  }

  /** The wave of the candidate is started: nothing before it ends the session. */
  ghost predicate Reached(x: Script, i: nat)
    requires x.workers > 0 && i < |x.plan|
  {
    forall j | 0 <= j < WaveStart(x.workers, i) :: !Stops(x, j) && !Mismatched(x, j)
  }

  function WaveLimit(x: Script, done: nat): nat {
    if done + x.workers < |x.plan| then done + x.workers else |x.plan|
  }

  /** A session is through the waves before `done`; it has ended with the first wave that has a
      provider stop, with the plan, or inside the wave of the first mismatched result. */
  ghost predicate Ended(x: Script, end: End, done: nat)
    requires x.workers > 0
  {
    && done <= |x.plan| && (done < |x.plan| ==> WaveStart(x.workers, done) == done)
    && (forall j | 0 <= j < done :: Reached(x, j) && !Mismatched(x, j))
    && (end == Finished ==> done == |x.plan| || exists j :: 0 <= j < done && Stops(x, j))
    && (end == Mismatch ==> done < |x.plan| && Reached(x, done)
                            && exists m :: done <= m < WaveLimit(x, done) && Mismatched(x, m))
  }

  ghost predicate FirstMismatch(x: Script, from: nat, m: nat)
    requires x.workers > 0
  {
    from <= m < |x.plan| && Mismatched(x, m) && forall j | from <= j < m :: !Mismatched(x, j)
  }

  /** How many candidates belong to waves that were started. */
  function Started(x: Script, end: End, done: nat): nat {
    if end == Finished then done else WaveLimit(x, done)
  }

  lemma {:induction false} StartsInOrder(workers: nat, start: nat, i: nat)
    requires workers > 0 && WaveStart(workers, start) == start && start <= i
    ensures WaveStart(workers, i) >= start
    decreases i
  {
    if start >= workers {
      StartsInOrder(workers, start - workers, i - workers);
    }
  }

  /** The waves before `done` were started and none of their results names another job. */
  ghost predicate InProgress(x: Script, done: nat)
    requires x.workers > 0
  {
    && done <= |x.plan| && (done < |x.plan| ==> WaveStart(x.workers, done) == done)
    && forall j | 0 <= j < done :: Reached(x, j) && !Mismatched(x, j)
  }

  lemma NothingDone(x: Script, start: Progress)
    requires x.workers > 0
    ensures InProgress(x, 0) && Through(x, start, 0) == start
  {
  }

  lemma WaveOpens(x: Script, start: Progress, done: nat)
    requires x.workers > 0 && done < |x.plan| && InProgress(x, done) && start.counts == NONE
             && Through(x, start, done).counts.stops == 0
    ensures WaveStart(x.workers, done) == done && Reached(x, done)
    ensures done < WaveLimit(x, done) <= |x.plan|
  {
    ThroughAccounted(x, start, done);
  }

  lemma WaveCloses(x: Script, start: Progress, done: nat)
    requires x.workers > 0 && done < |x.plan| && InProgress(x, done) && Reached(x, done) && start.counts == NONE
    requires forall j | done <= j < WaveLimit(x, done) :: !Mismatched(x, j)
    ensures var last := WaveLimit(x, done);
            InProgress(x, last) && (Through(x, start, last).counts.stops != 0 ==> Ended(x, Finished, last))
  {
    hide Mismatched, Stops, Through;
    var last := WaveLimit(x, done);
    NextWave(x, done);
    forall j | done <= j < last ensures Reached(x, j) {
      SameWave(x.workers, done, j);
    }
    ThroughAccounted(x, start, last);
  }

  lemma MismatchEnds(x: Script, done: nat)
    requires x.workers > 0 && done < |x.plan| && InProgress(x, done) && Reached(x, done)
    requires exists m :: done <= m < WaveLimit(x, done) && FirstMismatch(x, done, m)
    ensures Ended(x, Mismatch, done)
    ensures forall m | done <= m && FirstMismatch(x, done, m) :: FirstMismatch(x, 0, m)
  {
    hide Mismatched, Stops;
  }

  lemma FinishedEnds(x: Script, start: Progress, done: nat)
    requires x.workers > 0 && InProgress(x, done) && start.counts == NONE
    requires done == |x.plan| || Ended(x, Finished, done)
    ensures Ended(x, Finished, done) && Accounted(Through(x, start, done).counts, done)
  {
    hide Mismatched, Stops, Through;
    ThroughAccounted(x, start, done);
  }

  /** A result names another job in a started wave iff the session ends for it, and the waves
      started are exactly those that nothing before them ends. */
  lemma EndedExactly(x: Script, end: End, done: nat)
    requires x.workers > 0 && Ended(x, end, done)
    ensures end == Mismatch <==> exists m :: 0 <= m < |x.plan| && Reached(x, m) && Mismatched(x, m)
    ensures Started(x, end, done) <= |x.plan|
    ensures forall j | 0 <= j < |x.plan| :: Reached(x, j) <==> j < Started(x, end, done)
  {
    hide Stops, Mismatched, WaveStart;
    var sent := Started(x, end, done);
    forall j | 0 <= j < |x.plan| ensures Reached(x, j) <==> j < sent {
      if done <= j < sent {
        SameWave(x.workers, done, j);
      } else if sent <= j {
        NextWave(x, done);
        StartsInOrder(x.workers, sent, j);
      }
    }
  }

  lemma NextWave(x: Script, done: nat)
    requires x.workers > 0 && done < |x.plan| && WaveStart(x.workers, done) == done
    ensures WaveLimit(x, done) < |x.plan| ==> WaveStart(x.workers, WaveLimit(x, done)) == WaveLimit(x, done)
  {
    SameWave(x.workers, done, WaveLimit(x, done));
  }

  /** The coordinating thread: the job store, the journal with its two indexes, and the
      history of durable worlds. */
  class Coordinator {
    var rows: map<string, Snapshot>
    var log: seq<Event>
    var originals: set<Key>
    var proposals: map<Key, Record>
    var tick: nat
    var calls: seq<Call>
    var writes: seq<Write>
    var run: seq<World>

    /** What the other writers make of the rows whenever they get a chance. */
    const others: (nat, map<string, Snapshot>) -> map<string, Snapshot>

    function Now(): World
      reads this`rows, this`log, this`calls, this`writes
    {
      World(rows, log, calls, writes)
    }

    ghost predicate Valid()
      reads this`rows, this`log, this`calls, this`writes, this`run
    {
      Run(run) && run[|run| - 1] == Now() && Safe(run[0])
    }

    constructor (rows: map<string, Snapshot>, others: (nat, map<string, Snapshot>) -> map<string, Snapshot>)
      ensures Valid() && this.rows == rows && this.others == others
      ensures log == [] && calls == [] && writes == [] && run == [World(rows, [], [], [])]
    {
      this.rows, this.log, this.others := rows, [], others;
      originals, proposals, tick := {}, map[], 0;
      calls, writes, run := [], [], [World(rows, [], [], [])];
    }

    /** Any change by the others, at any time. */
    method Interfere()
      requires Valid()
      modifies this`rows, this`tick, this`run
      ensures Valid() && old(run) <= run
      ensures rows == others(old(tick), old(rows)) && tick == old(tick) + 1
    {
      rows, tick := others(tick, rows), tick + 1;
      run := run + [Now()];
      assert Step(run[|run| - 2], run[|run| - 1]);
    }

    /** Opening the journal replays it into the two indexes. */
    method Open()
      requires Valid()
      modifies this`originals, this`proposals
      ensures Valid() && originals == Originals(log) && proposals == Proposals(log)
    {
      hide Valid, Originals, Proposals, Proposed;
      originals, proposals := {}, map[];
      EmptyIndexes();
      for i := 0 to |log|
        invariant originals == Originals(log[..i]) && proposals == Proposals(log[..i])
      {
        assert log[..i + 1] == log[..i] + [log[i]];
        IndexesGrow(log[..i], log[i]);
        ProposalsNext(log[..i], log[i]);
        match log[i] {
          case Original(key, _) => originals := originals + {key};
          case Proposal(key, record) => proposals := proposals[key := record];
          case _ =>
        }
      }
      assert log[..|log|] == log;
    }

    /** One journal line, on disk before anything after it. */
    method Append(e: Event)
      requires Valid() && Appendable(log, e)
      modifies this`log, this`run
      ensures Valid() && old(run) <= run
      ensures log == old(log) + [e]
    {
      log := log + [e];
      run := run + [Now()];
      assert run[|run| - 2].log + [e] == log;
      assert Step(run[|run| - 2], run[|run| - 1]);
    }

    method Send(index: nat, key: Key)
      requires Valid() && HasOriginal(log, key)
      modifies this`calls, this`run
      ensures Valid() && old(run) <= run
      ensures calls == old(calls) + [Call(index, key, |log|)]
    {
      calls := calls + [Call(index, key, |log|)];
      run := run + [Now()];
      assert Step(run[|run| - 2], run[|run| - 1]);
    }

    /** Lock, compare the exact planned rows, replace with a validated score only. */
    method ApplyIfUnchanged(key: Key, record: Record, now: int) returns (r: Result<bool, End>)
      requires Valid() && (Validated(record) ==> Proposal(key, record) in log)
      modifies this`rows, this`writes, this`run
      ensures Valid() && old(run) <= run
      ensures var row := key.candidate.row;
              r == if !record.complete || record.matchScore == None then Ok(false)
                   else if record.jobId != row.job.id then Err(Mismatch)
                   else Ok(record.jobId in old(rows) && old(rows)[record.jobId] == row)
      ensures r == Ok(true) ==>
                && record.jobId in rows
                && var was, row := key.candidate.row, rows[record.jobId];
                && row.job.matchScore == row.analysis.matchScore == record.matchScore
                && row.analysis.content == record.content
                && row.job.updatedAt == row.analysis.updatedAt == now
                && row.job.id == was.job.id && row.job.content == was.job.content
                && forall id | id in rows && id != record.jobId :: id in old(rows) && rows[id] == old(rows)[id]
      ensures r == Ok(true) ==>
                && rows == old(rows)[record.jobId := Replaced(key.candidate.row, record, now)]
                && writes == old(writes) + [Write(key, key.candidate.row, record, |log|)]
      ensures r != Ok(true) ==> rows == old(rows) && writes == old(writes)
    {
      if !Validated(record) { return Ok(false); }
      if record.jobId != key.candidate.row.job.id { return Err(Mismatch); }
      if record.jobId !in rows || rows[record.jobId] != key.candidate.row { return Ok(false); }
      ghost var was := Now();
      writes := writes + [Write(key, rows[record.jobId], record, |log|)];
      rows := rows[record.jobId := Replaced(rows[record.jobId], record, now)];
      run := run + [Now()];
      assert Replacing(was, Now(), key, record, now);
      return Ok(true);
    }

    /** Backs a wave up: after it, the journal holds the original of each of its candidates. */
    method BackUp(plan: seq<Candidate>, target: string, from: nat, to: nat)
      requires Valid() && originals == Originals(log) && from <= to <= |plan|
      modifies this`log, this`run, this`originals
      ensures Valid() && originals == Originals(log)
      ensures old(run) <= run && old(log) <= log && Proposed(log) == old(Proposed(log))
      ensures forall j | from <= j < to :: HasOriginal(log, KeyOf(plan, target, j))
    {
      for i := from to to
        invariant Valid() && originals == Originals(log)
        invariant old(run) <= run && old(log) <= log && Proposed(log) == old(Proposed(log))
        invariant forall j | from <= j < i :: HasOriginal(log, KeyOf(plan, target, j))
      {
        var key := KeyOf(plan, target, i);
        if key !in originals {
          IndexesGrow(log, Original(key, key.candidate.row));
          Append(Original(key, key.candidate.row));
          originals := originals + {key};
        } else {
          RunIsSafe(run);
          OriginalIsExact(log, key);
        }
      }
    }

    /** Sends the candidates of a wave that had no journaled proposal when the session began. */
    method Submit(plan: seq<Candidate>, target: string, workers: nat, ghost answers: nat -> Answer,
                  ghost known: set<Key>, from: nat, to: nat, ghost first: nat)
      requires Valid() && workers > 0 && from <= to <= |plan| && to <= from + workers && first <= |calls|
      requires WaveStart(workers, from) == from
      requires proposals.Keys == known
      requires forall j | from <= j < to :: HasOriginal(log, KeyOf(plan, target, j))
      requires Proposed(log) == known + Journaled(plan, target, workers, known, answers, from)
      requires CallsMatch(plan, target, workers, known, answers, calls, log, first)
      requires SentExactly(plan, target, known, calls, first, from)
      modifies this`calls, this`run
      ensures Valid() && old(run) <= run && old(calls) <= calls
      ensures CallsMatch(plan, target, workers, known, answers, calls, log, first)
      ensures SentExactly(plan, target, known, calls, first, to)
    {
      hide SentExactly;
      for i := from to to
        invariant Valid() && old(run) <= run && old(calls) <= calls
        invariant CallsMatch(plan, target, workers, known, answers, calls, log, first)
        invariant SentExactly(plan, target, known, calls, first, i)
      {
        SameWave(workers, from, i);
        SentNext(plan, target, known, calls, first, i, Call(i, KeyOf(plan, target, i), |log|));
        var key := KeyOf(plan, target, i);
        if key !in proposals {
          assert log[..|log|] == log;
          Send(i, key);
        }
      }
    }

    /** Tries to apply a journaled proposal and notes what became of it.  The row is replaced
        iff it is, after whatever the others did meanwhile, still the planned one. */
    method Settle(key: Key, record: Record, now: int) returns (end: End, applied: bool)
      requires Valid() && Validated(record) && Proposal(key, record) in log
      modifies this`rows, this`log, this`writes, this`run, this`tick
      ensures Valid() && old(run) <= run && old(log) <= log
      ensures Proposed(log) == old(Proposed(log)) && Originals(log) == old(Originals(log))
      ensures end == Finished <==> record.jobId == key.candidate.row.job.id
      ensures var row, seen := key.candidate.row, others(old(tick), old(rows));
              && (applied <==> end == Finished && record.jobId in seen && seen[record.jobId] == row)
              && rows == (if applied then seen[record.jobId := Replaced(row, record, now)] else seen)
              && tick == old(tick) + 1
              && |writes| == |old(writes)| + (if applied then 1 else 0)
      ensures applied ==>
                && record.jobId in rows
                && var was, row := key.candidate.row, rows[record.jobId];
                && row.job.matchScore == row.analysis.matchScore == record.matchScore
                && row.analysis.content == record.content
                && row.job.updatedAt == row.analysis.updatedAt == now
                && row.job.id == was.job.id && row.job.content == was.job.content
      ensures log == old(log) + if end == Mismatch then [] else if applied then [Applied(key)] else [Skipped(key)]
    {
      hide Safe, Run, Step, Proposed, Originals, Valid;
      Interfere();
      var result := ApplyIfUnchanged(key, record, now);
      if result.Err? { return Mismatch, false; }
      var note := if result.value then Applied(key) else Skipped(key);
      IndexesGrow(log, note);
      Append(note);
      return Finished, result.value;
    }

    /** Journals and applies the result for one candidate of the wave, whatever the others do. */
    method Process(x: Script, i: nat, before: Counts) returns (end: End, counts: Counts)
      requires Valid() && x.workers > 0 && i < |x.plan| && HasOriginal(log, KeyOf(x.plan, x.target, i))
      requires x.proposals == proposals && x.others == others && Held(proposals, log)
      modifies this`rows, this`log, this`writes, this`run, this`tick
      ensures Valid() && old(run) <= run && old(log) <= log
      ensures var key := KeyOf(x.plan, x.target, i);
              Proposed(log) == old(Proposed(log)) +
                if key !in proposals && Usable(AnswerFor(x.plan, x.target, x.workers, x.answers, i)) then {key} else {}
      ensures Originals(log) == old(Originals(log))
      ensures counts.applied - before.applied == |writes| - |old(writes)|
      ensures end == Mismatch <==> Mismatched(x, i)
      ensures Progress(rows, tick, counts) == After(x, Progress(old(rows), old(tick), before), i)
      ensures log == old(log) + Lines(x, Progress(old(rows), old(tick), before), i)
      ensures var key, answer := KeyOf(x.plan, x.target, i), AnswerFor(x.plan, x.target, x.workers, x.answers, i);
              if key !in proposals
                 && (answer.Raised? || !answer.record.complete || answer.record.matchScore == None) then
                && end == Finished && rows == old(rows) && log == old(log) + [CallFailed(key)]
                && counts == before.(model := before.model + 1, failed := before.failed + 1,
                                     stops := before.stops + if answer.Answered? && answer.providerStop then 1 else 0)
              else
                var record := if key in proposals then proposals[key] else answer.record;
                && Proposal(key, record) in log && counts.failed == before.failed && counts.stops == before.stops
                && counts.reused - before.reused == (if key in proposals then 1 else 0)
                && counts.model - before.model == (if key in proposals then 0 else 1)
                && (counts.applied > before.applied ==>
                      && record.jobId in rows
                      && var row := rows[record.jobId];
                      && row.job.matchScore == row.analysis.matchScore == record.matchScore
                      && row.analysis.content == record.content)
    {
      hide AnswerFor, Safe, Run, Step, Proposed, Originals, Valid;
      var key := KeyOf(x.plan, x.target, i);
      var record: Record;
      counts, end := before, Finished;
      if key in proposals {
        record, counts := proposals[key], counts.(reused := counts.reused + 1);
      } else {
        counts := counts.(model := counts.model + 1);
        var answer := AnswerFor(x.plan, x.target, x.workers, x.answers, i);
        if !Usable(answer) {
          IndexesGrow(log, CallFailed(key));
          Append(CallFailed(key));
          counts := counts.(failed := counts.failed + 1);
          if answer.Answered? && answer.providerStop { counts := counts.(stops := counts.stops + 1); }
          return;
        }
        record := answer.record;
        IndexesGrow(log, Proposal(key, record));
        Append(Proposal(key, record));
      }
      var applied;
      ghost var proposed := log;
      assert proposed == old(log) + if key in proposals then [] else [Proposal(key, record)];
      end, applied := Settle(key, record, x.clock(tick));
      assert log == old(log) + Lines(x, Progress(old(rows), old(tick), before), i);
      if applied {
        counts := counts.(applied := counts.applied + 1);
      } else if end == Finished {
        counts := counts.(skipped := counts.skipped + 1);
      }
    }

    /** Processes a wave in order; a mismatched result ends the session. */
    method ProcessWave(x: Script, ghost known: set<Key>, ghost start: Progress, from: nat, to: nat, before: Counts)
      returns (end: End, counts: Counts)
      requires Valid() && x.workers > 0 && from <= to <= |x.plan| && proposals.Keys == known
      requires x.proposals == proposals && x.others == others && Held(proposals, log)
      requires forall j | from <= j < to :: HasOriginal(log, KeyOf(x.plan, x.target, j))
      requires Proposed(log) == known + Journaled(x.plan, x.target, x.workers, known, x.answers, from)
      requires Progress(rows, tick, before) == Through(x, start, from)
      modifies this`rows, this`log, this`writes, this`run, this`tick
      ensures Valid() && old(run) <= run && old(log) <= log && Originals(log) == old(Originals(log))
      ensures counts.applied - before.applied == |writes| - |old(writes)|
      ensures end == Finished ==>
                && Proposed(log) == known + Journaled(x.plan, x.target, x.workers, known, x.answers, to)
                && Progress(rows, tick, counts) == Through(x, start, to)
                && forall j | from <= j < to :: !Mismatched(x, j)
      ensures end == Mismatch ==>
                exists m :: from <= m < to && FirstMismatch(x, from, m)
                  && Progress(rows, tick, counts) == Through(x, start, m + 1)
                            && Proposed(log) == known + Journaled(x.plan, x.target, x.workers, known, x.answers, m + 1)
    {
      hide AnswerFor, Safe, Run, Step, Proposed, Originals, Usable, Valid, Journaled, KeyOf, Held, After, Mismatched;
      counts, end := before, Finished;
      for i := from to to
        invariant Valid() && old(run) <= run && old(log) <= log && Originals(log) == old(Originals(log))
        invariant Proposed(log) == known + Journaled(x.plan, x.target, x.workers, known, x.answers, i)
        invariant Progress(rows, tick, counts) == Through(x, start, i) && end == Finished
        invariant forall j | from <= j < i :: !Mismatched(x, j)
        invariant counts.applied - before.applied == |writes| - |old(writes)|
      {
        JournaledNext(x.plan, x.target, x.workers, known, x.answers, i);
        HeldLater(proposals, old(log), log);
        end, counts := Process(x, i, counts);
        if end == Mismatch {
          assert FirstMismatch(x, from, i);
          return;
        }
      }
    }

    lemma ProposalsHeld()
      requires Valid()
      ensures Held(Proposals(log), log)
    {
      hide Backed;
      RunIsSafe(run);
      assert Founded(Now().log);
      forall k | k in Proposals(log) ensures Validated(Proposals(log)[k]) {
        var j :| 0 <= j < |log| && log[j] == Proposal(k, Proposals(log)[k]);
        assert Appendable(log[..j], log[j]);
      }
    }

    /** One session over the planned candidates, wave by wave: back the whole wave up, send
        every candidate without a journaled proposal, then journal and apply each result.  It
        ends as its script says, and leaves the rows, the counters, the proposals and the
        calls that the script gives; only a mismatched result cuts a wave short. */
    method Repair(plan: seq<Candidate>, target: string, workers: nat, answers: nat -> Answer, clock: nat -> int)
      returns (end: End, counts: Counts, done: nat)
      requires Valid() && 1 <= workers <= 4
      modifies this
      ensures Valid() && old(run) <= run && old(log) <= log && old(calls) <= calls && done <= |plan|
      ensures CallsMatch(plan, target, workers, Proposed(old(log)), answers, calls, log, |old(calls)|)
      ensures var x := Script(plan, target, workers, Proposals(old(log)), answers, clock, others);
              var start := Progress(old(rows), old(tick), NONE);
              && Ended(x, end, done)
              && SentExactly(plan, target, Proposed(old(log)), calls, |old(calls)|, Started(x, end, done))
              && (end == Finished ==>
                    Progress(rows, tick, counts) == Through(x, start, done) && Accounted(counts, done))
              && (end == Mismatch ==>
                    exists m :: done <= m < WaveLimit(x, done) && FirstMismatch(x, 0, m)
                                && Progress(rows, tick, counts) == Through(x, start, m + 1)
                                && Proposed(log) == Proposed(old(log))
                                     + Journaled(plan, target, workers, Proposed(old(log)), answers, m + 1))
              && (FreshCalls(old(Now())) ==> (FreshCalls(Now()) <==> !Resends(x)))
      ensures end == Finished ==>
                && Proposed(log) ==
                     Proposed(old(log)) + Journaled(plan, target, workers, Proposed(old(log)), answers, done)
                && (counts.stops == 0 ==> done == |plan|)
                && counts.model == |calls| - |old(calls)|
      ensures counts.applied == |writes| - |old(writes)|
    {
      hide Proposed, Originals, HasOriginal, AnswerFor, Safe, Run, Step, CallsMatch, Journaled, KeyOf, SentExactly,
           Valid, WaveStart, Held,
           After, Through, Mismatched, Stops, Accounted, Ended, FirstMismatch, FreshCalls, Resends;
      ghost var was := Now();
      Open();
      ProposalKeys(log);
      ProposalsHeld();
      ghost var known, first := proposals.Keys, |calls|;
      var x := Script(plan, target, workers, proposals, answers, clock, others);
      ghost var start := Progress(rows, tick, NONE);
      NothingYet(plan, target, workers, known, answers, calls, log);
      NothingDone(x, start);
      counts, end, done := NONE, Finished, 0;
      while done < |plan| && counts.stops == 0
        invariant Valid() && old(run) <= run && old(log) <= log && old(calls) <= calls
        invariant originals == Originals(log) && proposals == Proposals(old(log)) && Held(proposals, log)
        invariant InProgress(x, done) && (counts.stops != 0 ==> Ended(x, Finished, done))
        invariant Progress(rows, tick, counts) == Through(x, start, done)
        invariant Proposed(log) == known + Journaled(plan, target, workers, known, answers, done)
        invariant CallsMatch(plan, target, workers, known, answers, calls, log, first)
        invariant SentExactly(plan, target, known, calls, first, done)
        invariant counts.applied == |writes| - |old(writes)| && end == Finished
        decreases |plan| - done
      {
        WaveOpens(x, start, done);
        var last := WaveLimit(x, done);
        SameWave(workers, done, last);
        ghost var earlier := log;
        BackUp(plan, target, done, last);
        HeldLater(proposals, earlier, log);
        CallsMatchLater(plan, target, workers, known, answers, calls, earlier, log, first);
        Submit(plan, target, workers, answers, known, done, last, first);
        earlier := log;
        end, counts := ProcessWave(x, known, start, done, last, counts);
        HeldLater(proposals, earlier, log);
        CallsMatchLater(plan, target, workers, known, answers, calls, earlier, log, first);
        if end == Mismatch {
          MismatchEnds(x, done);
          FreshExactly(x, end, done, was, Now());
          return;
        }
        WaveCloses(x, start, done);
        done := last;
      }
      FinishedEnds(x, start, done);
      FreshExactly(x, end, done, was, Now());
      ModelJobsCounted(x, start, done);
      SentCount(plan, target, known, calls, first, done);
    }

    /** Sessions with a crash after each: only what was durable at the crash survives, and
        the next session starts from it.  Every session is performed as its script says.  If no
        plan repeats a candidate, no key is ever sent to the model once its proposal is
        journaled, over all sessions. */
    method Campaign(sessions: seq<Session>) returns (ghost reports: seq<Report>)
      requires Valid() && log == [] && calls == []
      requires forall i | 0 <= i < |sessions| :: 1 <= sessions[i].workers <= 4
      modifies this
      ensures Valid() && forall k | 0 <= k < |run| :: Safe(run[k])
      ensures (forall i | 0 <= i < |sessions| :: Distinct(sessions[i].plan)) ==> FreshCalls(Now())
      ensures |reports| == |sessions| && forall i | 0 <= i < |sessions| :: Performed(sessions[i], others, reports[i])
      ensures Chained(old(Now()), reports, Now())
    {
      hide Step, CallsMatch, Journaled, Proposed, Resends, Ended, SentExactly, FirstMismatch, Through, Proposals,
           Performed, Started;
      ghost var distinct := forall i | 0 <= i < |sessions| :: Distinct(sessions[i].plan);
      reports := [];
      for i := 0 to |sessions|
        invariant Valid() && (distinct ==> FreshCalls(Now()))
        invariant |reports| == i && forall k | 0 <= k < i :: Performed(sessions[k], others, reports[k])
        invariant Chained(old(Now()), reports, Now())
      {
        ghost var report := Perform(sessions[i], distinct);
        reports := reports + [report];
      }
      RunIsSafe(run);
    }

    /** One session and the crash after it. */
    method Perform(session: Session, ghost distinct: bool) returns (ghost report: Report)
      requires Valid() && 1 <= session.workers <= 4
      requires distinct ==> FreshCalls(Now()) && Distinct(session.plan)
      modifies this
      ensures Valid() && Performed(session, others, report)
      ensures report.start == old(Now()) && report.left == Now() && (distinct ==> FreshCalls(Now()))
    {
      hide Step, CallsMatch, Journaled, Proposed, Resends, Ended, SentExactly, FirstMismatch, Through, Proposals,
           FreshCalls, Safe;
      ghost var was, started := Now(), tick;
      var start := |run| - 1;
      var end, counts, done := Repair(session.plan, session.target, session.workers, session.answers, session.clock);
      if distinct {
        DistinctNeverResends(ScriptOf(session, others, was.log));
      }
      ProposalKeys(was.log);
      ghost var finish := Now();
      var k := start + session.crash % (|run| - start);
      Between(run, start, k);
      Between(run, k, |run| - 1);
      report := Report(was, started, end, counts, done, finish, tick, run[k]);
      Crash(k);
    }

    /** Power is lost at the `k`-th durable world. */
    method Crash(k: nat)
      requires Valid() && k < |run|
      modifies this
      ensures Valid() && run == old(run)[..k + 1] && Now() == run[k]
      ensures FreshCalls(old(Now())) ==> FreshCalls(Now())
    {
      hide Safe, Step, FreshCalls;
      FreshEarlier(run, k);
      var w := run[k];
      rows, log, calls, writes := w.rows, w.log, w.calls, w.writes;
      run := run[..k + 1];
    }
  }

  datatype Session = Session(plan: seq<Candidate>, target: string, workers: nat,
                             answers: nat -> Answer, clock: nat -> int, crash: nat)

  /** A session as it was performed: where it started, how it ended, what it had done by then,
      and what a crash left of it. */
  datatype Report = Report(start: World, started: nat, end: End, counts: Counts, done: nat,
                           finish: World, finished: nat, left: World)

  function ScriptOf(s: Session, others: (nat, map<string, Snapshot>) -> map<string, Snapshot>,
                    log: seq<Event>): Script {
    Script(s.plan, s.target, s.workers, Proposals(log), s.answers, s.clock, others)
  }

  /** The session ended as its script says, sent what it says, and left the rows and counters it
      gives; the crash left a part of its journal and calls. */
  ghost predicate Performed(s: Session, others: (nat, map<string, Snapshot>) -> map<string, Snapshot>, r: Report) {
    var x := ScriptOf(s, others, r.start.log);
    && s.workers > 0 && Ended(x, r.end, r.done) && Started(x, r.end, r.done) <= |s.plan|
    && r.start.log <= r.left.log <= r.finish.log && r.start.calls <= r.left.calls <= r.finish.calls
    && SentExactly(s.plan, s.target, x.proposals.Keys, r.finish.calls, |r.start.calls|, Started(x, r.end, r.done))
    && (r.end == Finished ==>
          Progress(r.finish.rows, r.finished, r.counts) == Through(x, Progress(r.start.rows, r.started, NONE), r.done))
    && r.counts.applied == |r.finish.writes| - |r.start.writes|
  }

  /** Every session starts from what the one before left. */
  ghost predicate Chained(first: World, reports: seq<Report>, last: World) {
    if reports == [] then first == last
    else
      && reports[0].start == first && reports[|reports| - 1].left == last
      && forall j, k | 0 <= j && k == j + 1 < |reports| :: reports[j].left == reports[k].start
  }

  lemma Between(run: seq<World>, a: nat, b: nat)
    requires Run(run) && a <= b < |run|
    ensures run[a].log <= run[b].log && run[a].calls <= run[b].calls
  {
    hide Step;
    Grows(run[..b + 1], a);
  }

  predicate Distinct(plan: seq<Candidate>) {
    forall i, j | 0 <= i < j < |plan| :: plan[i] != plan[j]
  }

  /** No call found its key already proposed. */
  ghost predicate FreshCalls(w: World) {
    forall k | 0 <= k < |w.calls| :: w.calls[k].at <= |w.log| && w.calls[k].key !in Proposed(w.log[..w.calls[k].at])
  }

  /** Journal and call history only grow along a run. */
  lemma {:induction false} Grows(run: seq<World>, k: nat)
    requires Run(run) && k < |run|
    ensures run[k].log <= run[|run| - 1].log && run[k].calls <= run[|run| - 1].calls
  {
    var n := |run| - 1;
    if k < n {
      Grows(run[..n], k);
      assert run[..n][n - 1] == run[n - 1];
      assert Step(run[n - 1], run[n]);
    }
  }

  lemma FreshEarlier(run: seq<World>, k: nat)
    requires Run(run) && Safe(run[0]) && k < |run|
    ensures FreshCalls(run[|run| - 1]) ==> FreshCalls(run[k])
  {
    hide Proposed, Founded, Backed, HasOriginal;
    RunIsSafe(run);
    Grows(run, k);
    var w, last := run[k], run[|run| - 1];
    forall j | FreshCalls(last) && 0 <= j < |w.calls|
      ensures w.calls[j].at <= |w.log| && w.calls[j].key !in Proposed(w.log[..w.calls[j].at])
    {
      assert w.calls[j] == last.calls[j];
      assert w.log[..w.calls[j].at] == last.log[..w.calls[j].at];
    }
  }

  lemma {:induction false} JournaledFrom(plan: seq<Candidate>, target: string, workers: nat, known: set<Key>,
                                         answers: nat -> Answer, n: nat, key: Key)
    requires workers > 0 && n <= |plan| && key in Journaled(plan, target, workers, known, answers, n)
    ensures exists i :: 0 <= i < n && KeyOf(plan, target, i) == key
    ensures key !in known
  {
    if key in Journaled(plan, target, workers, known, answers, n - 1) {
      JournaledFrom(plan, target, workers, known, answers, n - 1, key);
    }
  }

  // ----- when a session sends a key again -----

  /** The index of proposals in memory is not extended by a session's own proposals, so a
      candidate of a started wave is sent again if an earlier wave proposed its key. */
  ghost predicate Resends(x: Script)
    requires x.workers > 0
  {
    exists j :: 0 <= j < |x.plan| && ResendsAt(x, j)
  }

  ghost predicate ResendsAt(x: Script, j: nat)
    requires x.workers > 0 && j < |x.plan|
  {
    var key := KeyOf(x.plan, x.target, j);
    && Reached(x, j) && key !in x.proposals
    && key in Journaled(x.plan, x.target, x.workers, x.proposals.Keys, x.answers, WaveStart(x.workers, j))
  }

  /** What a session's calls show is what its script says. */
  lemma FreshExactly(x: Script, end: End, done: nat, was: World, now: World)
    requires x.workers > 0 && Ended(x, end, done) && was.log <= now.log && was.calls <= now.calls
    requires SentExactly(x.plan, x.target, x.proposals.Keys, now.calls, |was.calls|, Started(x, end, done))
    requires CallsMatch(x.plan, x.target, x.workers, x.proposals.Keys, x.answers, now.calls, now.log, |was.calls|)
    ensures FreshCalls(was) ==> (FreshCalls(now) <==> !Resends(x))
  {
    hide Proposed, Journaled, Stops, Mismatched, Ended, Reached;
    EndedExactly(x, end, done);
    var n, from := Started(x, end, done), |was.calls|;
    if FreshCalls(was) && !Resends(x) {
      forall k | 0 <= k < |now.calls| ensures now.calls[k].at <= |now.log|
        && now.calls[k].key !in Proposed(now.log[..now.calls[k].at]) {
        var c := now.calls[k];
        if k < from {
          assert c == was.calls[k] && now.log[..c.at] == was.log[..c.at];
        } else {
          assert Indexes(now.calls, from)[k - from] == c.index;
          UnknownIn(x.plan, x.target, x.proposals.Keys, n, c.index);
          assert Reached(x, c.index) && !ResendsAt(x, c.index);
        }
      }
    }
    if Resends(x) {
      var j :| 0 <= j < |x.plan| && ResendsAt(x, j);
      UnknownIn(x.plan, x.target, x.proposals.Keys, n, j);
      var k :| 0 <= k < |now.calls| - from && Indexes(now.calls, from)[k] == j;
      assert now.calls[from + k].key in Proposed(now.log[..now.calls[from + k].at]);
    }
  }

  /** A journaled result that names another job ends every session at its candidate. */
  predicate Blocking(plan: seq<Candidate>, target: string, proposals: map<Key, Record>, m: nat)
    requires m < |plan|
  {
    KeyOf(plan, target, m) in proposals && proposals[KeyOf(plan, target, m)].jobId != plan[m].row.job.id
  }

  /** No key that the journal has no proposal for is planned again in a later wave, unless the
      session is bound to end before that wave. */
  predicate NoRepeatAcrossWaves(plan: seq<Candidate>, target: string, workers: nat, proposals: map<Key, Record>)
    requires workers > 0
  {
    forall i, j | 0 <= j < |plan| && 0 <= i < WaveStart(workers, j)
                  && KeyOf(plan, target, i) == KeyOf(plan, target, j) && KeyOf(plan, target, i) !in proposals ::
      exists m :: 0 <= m < WaveStart(workers, j) && Blocking(plan, target, proposals, m)
  }

  lemma DistinctNeverResends(x: Script)
    requires x.workers > 0 && Distinct(x.plan)
    ensures !Resends(x)
  {
    hide Journaled, Reached;
    forall j | 0 <= j < |x.plan| ensures !ResendsAt(x, j) {
      var key, start := KeyOf(x.plan, x.target, j), WaveStart(x.workers, j);
      if key in Journaled(x.plan, x.target, x.workers, x.proposals.Keys, x.answers, start) {
        JournaledFrom(x.plan, x.target, x.workers, x.proposals.Keys, x.answers, start, key);
      }
    }
  }

  /** A candidate planned twice, with one worker and a usable answer: the second is sent
      although the first one's proposal is already journaled. */
  lemma RepeatIsResent(x: Script, c: Candidate, r: Record)
    requires x.plan == [c, c] && x.workers == 1 && x.proposals == map[]
    requires Validated(r) && r.jobId == c.row.job.id && forall i :: x.answers(i) == Answered(r, false)
    ensures Resends(x)
  {
    JournaledNext(x.plan, x.target, 1, {}, x.answers, 0);
    assert x.proposals.Keys == {};
    assert !Mismatched(x, 0) && !Stops(x, 0);
    assert ResendsAt(x, 1);
  }

  /** The same as a run: on a fresh journal, for any rows and any other writers, such a session
      sends a key whose proposal the journal already holds. */
  method RepeatRun(c: Candidate, target: string, r: Record, rows: map<string, Snapshot>,
                   others: (nat, map<string, Snapshot>) -> map<string, Snapshot>, clock: nat -> int)
    returns (coordinator: Coordinator)
    requires Validated(r) && r.jobId == c.row.job.id
    ensures fresh(coordinator) && coordinator.Valid() && !FreshCalls(coordinator.Now())
  {
    hide Resends, Ended, SentExactly, FirstMismatch, Through, CallsMatch, Journaled, Proposed;
    coordinator := new Coordinator(rows, others);
    ghost var x := Script([c, c], target, 1, map[], i => Answered(r, false), clock, others);
    RepeatIsResent(x, c, r);
    var _, _, _ := coordinator.Repair([c, c], target, 1, i => Answered(r, false), clock);
  }

  /** Answers that name their own job and never stop the provider. */
  function Honest(plan: seq<Candidate>): nat -> Answer {
    (k: nat) => Answered(Record(if k < |plan| then plan[k].row.job.id else "", true, Some(0), ""), false)
  }

  lemma HonestReaches(x: Script, j: nat)
    requires x.workers > 0 && j < |x.plan| && x.answers == Honest(x.plan)
    requires forall m | 0 <= m < WaveStart(x.workers, j) :: !Blocking(x.plan, x.target, x.proposals, m)
    ensures Reached(x, j)
  {
    forall m | 0 <= m < WaveStart(x.workers, j) ensures !Stops(x, m) && !Mismatched(x, m) {
      var l := LastWithKey(x.plan, x.target, m, WaveEnd(x.plan, x.workers, m));
      assert KeyOf(x.plan, x.target, l) == KeyOf(x.plan, x.target, m);
      assert Usable(x.answers(l)) && x.answers(l).record.jobId == x.plan[m].row.job.id;
      assert !Blocking(x.plan, x.target, x.proposals, m);
    }
  }

  lemma {:induction false} HonestJournaled(x: Script, n: nat, i: nat)
    requires x.workers > 0 && i < n <= |x.plan| && KeyOf(x.plan, x.target, i) !in x.proposals
             && x.answers == Honest(x.plan)
    ensures KeyOf(x.plan, x.target, i) in Journaled(x.plan, x.target, x.workers, x.proposals.Keys, x.answers, n)
  {
    if i < n - 1 { HonestJournaled(x, n - 1, i); }
  }

  /** Exactly when: no session over a plan resends, whatever the model answers, iff no key
      without a journaled proposal is planned again in a wave that can be reached. */
  lemma ResendExactly(x: Script)
    requires x.workers > 0
    ensures (forall answers: nat -> Answer :: !Resends(x.(answers := answers)))
       <==> NoRepeatAcrossWaves(x.plan, x.target, x.workers, x.proposals)
  {
    hide Journaled, Stops;
    if NoRepeatAcrossWaves(x.plan, x.target, x.workers, x.proposals) {
      forall answers: nat -> Answer ensures !Resends(x.(answers := answers)) {
        NoRepeatNoResend(x.(answers := answers));
      }
    } else {
      var i, j :| 0 <= j < |x.plan| && 0 <= i < WaveStart(x.workers, j)
                  && KeyOf(x.plan, x.target, i) == KeyOf(x.plan, x.target, j)
                    && KeyOf(x.plan, x.target, i) !in x.proposals
                  && forall m | 0 <= m < WaveStart(x.workers, j) :: !Blocking(x.plan, x.target, x.proposals, m);
      var y := x.(answers := Honest(x.plan));
      HonestReaches(y, j);
      HonestJournaled(y, WaveStart(x.workers, j), i);
      assert ResendsAt(y, j);
      assert Resends(x.(answers := Honest(x.plan)));
    }
  }

  lemma NoRepeatNoResend(x: Script)
    requires x.workers > 0 && NoRepeatAcrossWaves(x.plan, x.target, x.workers, x.proposals)
    ensures !Resends(x)
  {
    hide Journaled, Stops;
    forall j | 0 <= j < |x.plan| ensures !ResendsAt(x, j) {
      var key, start := KeyOf(x.plan, x.target, j), WaveStart(x.workers, j);
      if key !in x.proposals && key in Journaled(x.plan, x.target, x.workers, x.proposals.Keys, x.answers, start) {
        JournaledFrom(x.plan, x.target, x.workers, x.proposals.Keys, x.answers, start, key);
        var i :| 0 <= i < start && KeyOf(x.plan, x.target, i) == key;
        var m :| 0 <= m < start && Blocking(x.plan, x.target, x.proposals, m);
        assert Mismatched(x, m);
      }
    }
  }

  /** Plans made from distinct job rows repeat no candidate, so that no session over them
      resends. */
  lemma PlannedRowsAreDistinct(plan: seq<Candidate>, target: string, workers: nat, proposals: map<Key, Record>)
    requires workers > 0 && forall i, j | 0 <= i < j < |plan| :: plan[i].row.job.id != plan[j].row.job.id
    ensures Distinct(plan) && NoRepeatAcrossWaves(plan, target, workers, proposals)
  {
    forall i, j | 0 <= j < |plan| && 0 <= i < WaveStart(workers, j) ensures KeyOf(plan, target, i) != KeyOf(plan,
        target, j) {
      assert plan[i] != plan[j];
    }
  }

  // ----- a session that nobody disturbs -----

  /** With the planned rows in place and nobody else writing, every candidate with a result is
      applied and the others keep their rows. */
  lemma {:induction false} UndisturbedApplies(x: Script, p: Progress, n: nat, i: nat)
    requires x.workers > 0 && n <= |x.plan| && i < |x.plan|
    requires forall t: nat, rows :: x.others(t, rows) == rows
    requires forall j, k | 0 <= j < k < |x.plan| :: x.plan[j].row.job.id != x.plan[k].row.job.id
    requires forall j | 0 <= j < |x.plan| ::
               x.plan[j].row.job.id in p.rows && p.rows[x.plan[j].row.job.id] == x.plan[j].row
    requires forall j | 0 <= j < n :: !Mismatched(x, j)
    ensures var rows, row := Through(x, p, n).rows, x.plan[i].row;
            && row.job.id in rows
            && (i < n && Given(x, i).Some? ==>
                  var record, after := Given(x, i).value, rows[row.job.id];
                  && after.job.matchScore == after.analysis.matchScore == record.matchScore
                  && after.analysis.content == record.content
                  && after.job.updatedAt == after.analysis.updatedAt
                  && (exists t :: after.job.updatedAt == x.clock(t))
                  && after.job.id == row.job.id && after.job.content == row.job.content)
            && (i >= n || Given(x, i) == None ==> rows[row.job.id] == row)
    ensures Through(x, p, n).counts.skipped == p.counts.skipped
  {
    hide Given, After, Mismatched;
    if n > 0 {
      UndisturbedApplies(x, p, n - 1, i);
      UndisturbedApplies(x, p, n - 1, n - 1);
      UndisturbedStep(x, Through(x, p, n - 1), n - 1);
      var now := x.clock(Through(x, p, n - 1).tick);
    }
  }

  lemma UndisturbedStep(x: Script, p: Progress, i: nat)
    requires x.workers > 0 && i < |x.plan| && !Mismatched(x, i)
    requires x.others(p.tick, p.rows) == p.rows
    requires x.plan[i].row.job.id in p.rows && p.rows[x.plan[i].row.job.id] == x.plan[i].row
    ensures var q, row := After(x, p, i), x.plan[i].row;
            && q.rows == (if Given(x, i) == None then p.rows
                          else p.rows[row.job.id := Replaced(row, Given(x, i).value, x.clock(p.tick))])
            && q.counts.skipped == p.counts.skipped
  {
    hide RecordFor, AnswerFor, Replaced;
  }

  /** Whatever happens in a run, each replacement leaves the record's score in both rows, the
      record's analysis, and everything else of the job and of the other rows as it was. */
  lemma WriteExactly(w: World, w': World)
    requires Step(w, w') && w'.writes != w.writes
    ensures |w'.writes| == |w.writes| + 1 && w'.writes[..|w.writes|] == w.writes
    ensures var write := w'.writes[|w.writes|];
            var id := write.record.jobId;
            && id in w.rows && w.rows[id] == write.before == write.key.candidate.row && w'.rows.Keys == w.rows.Keys
            && var after := w'.rows[id];
            && after.job.matchScore == after.analysis.matchScore == write.record.matchScore
            && after.analysis.content == write.record.content
            && after.job.updatedAt == after.analysis.updatedAt
            && after.job.id == id && after.job.content == write.before.job.content
            && forall other | other in w.rows && other != id :: w'.rows[other] == w.rows[other]
  {
    var key, r, now :| Replacing(w, w', key, r, now);
  }
}
