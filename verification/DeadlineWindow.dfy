/** A batch of detail fetches under a deadline: a bounded pool over pending rows, results as
    they complete, and the coverage report.

    The clock, the completions of every wait and the work itself are parameters (`World`);
    an empty completion list is a wait that timed out. */
module DeadlineWindow {
  datatype Key = Key(id: string, contentSha: string)

  datatype Row = Row(key: Key, payload: string)

  datatype Item = Item(row: Row, content: string)

  datatype World = World(clock: nat -> int, deadline: int, concurrency: nat, completions: nat -> seq<nat>,
                         work: Row -> string)

  /** The window while it runs.  `listed` is the report's list of rows in flight, `submitted`
      the clock readings at which rows were submitted, `tick` the number of clock readings. */
  datatype Window = Window(pending: seq<Row>, inFlight: seq<Row>, done: seq<Item>, listed: seq<Key>,
                           submitted: seq<int>, tick: nat)

  function Opened(rows: seq<Row>, tick: nat): Window {
    Window(rows, [], [], [], [], tick)
  }

  /** The first pending row goes to the pool. */
  function Take(w: Window, now: int): Window
    requires w.pending != []
  {
    w.(pending := w.pending[1..], inFlight := w.inFlight + [w.pending[0]],
       listed := w.listed + [w.pending[0].key], submitted := w.submitted + [now], tick := w.tick + 1)
  }

  /** Submits while there is a row, a free slot and time. */
  function Submit(e: World, w: Window): (r: Window)
    ensures |r.pending| + |r.inFlight| == |w.pending| + |w.inFlight|
    decreases |w.pending|
  {
    if w.pending == [] || |w.inFlight| >= e.concurrency then w
    else if e.clock(w.tick) >= e.deadline then w.(tick := w.tick + 1)
    else Submit(e, Take(w, e.clock(w.tick)))
  }

  /** The first `n` pending rows go to the pool, in order, each while a slot is free and before
      the deadline; then there is no row, no slot or no time left. */
  lemma {:induction false} SubmitExactly(e: World, w: Window) returns (n: nat)
    ensures n <= |w.pending|
    ensures var r := Submit(e, w);
            r.pending == w.pending[n..] && r.inFlight == w.inFlight + w.pending[..n] && r.done == w.done
    ensures n == 0 || |w.inFlight| + n <= e.concurrency
    ensures forall s | w.tick <= s < w.tick + n :: e.clock(s) < e.deadline
    ensures n == |w.pending| || |w.inFlight| + n >= e.concurrency || e.clock(w.tick + n) >= e.deadline
    decreases |w.pending|
  {
    if w.pending == [] || |w.inFlight| >= e.concurrency || e.clock(w.tick) >= e.deadline {
      n := 0;
    } else {
      var v := Take(w, e.clock(w.tick));
      var m := SubmitExactly(e, v);
      n := m + 1;
      assert w.pending[n..] == v.pending[m..];
      assert w.inFlight + w.pending[..n] == v.inFlight + v.pending[..m];
    }
  }

  function Without(listed: seq<Key>, key: Key): (r: seq<Key>)
    ensures forall k :: k in r <==> k in listed && k != key
  {
    if listed == [] then []
    else Without(listed[..|listed| - 1], key) + if listed[|listed| - 1] == key then [] else [listed[|listed| - 1]]
  }

  /** The row at place `j` of the pool is finished. */
  function Landed(e: World, w: Window, j: nat): Window
    requires j < |w.inFlight|
  {
    var row := w.inFlight[j];
    w.(inFlight := w.inFlight[..j] + w.inFlight[j + 1..], done := w.done + [Item(row, e.work(row))],
       listed := Without(w.listed, row.key))
  }

  /** The completed futures of one wait, in the order they are handled. */
  function LandAll(e: World, w: Window, picks: seq<nat>): (r: Window)
    ensures r.pending == w.pending && |r.inFlight| <= |w.inFlight|
    ensures picks != [] && w.inFlight != [] ==> |r.inFlight| < |w.inFlight|
    decreases |picks|
  {
    if picks == [] || w.inFlight == [] then w
    else LandAll(e, Landed(e, w, picks[0] % |w.inFlight|), picks[1..])
  }

  function Ticked(w: Window): Window {
    w.(tick := w.tick + 1)
  }

  /** The loop until nothing is in flight, the deadline has passed or a wait times out. */
  function Loop(e: World, w: Window): (r: Window)
    decreases |w.pending| + |w.inFlight|
  {
    if w.inFlight == [] then w
    else if e.clock(w.tick) >= e.deadline || e.completions(w.tick) == [] then Ticked(w)
    else Loop(e, Submit(e, LandAll(e, Ticked(w), e.completions(w.tick))))
  }

  function Final(e: World, rows: seq<Row>, tick: nat): Window {
    Loop(e, Submit(e, Opened(rows, tick)))
  }

  function RowsOf(items: seq<Item>): seq<Row> {
    seq(|items|, i requires 0 <= i < |items| => items[i].row)
  }

  // ----- what every window keeps -----

  /** Each row is pending, in flight or done, as often as it was given. */
  ghost predicate Accounted(rows: seq<Row>, w: Window) {
    multiset(rows) == multiset(w.pending) + multiset(w.inFlight) + multiset(RowsOf(w.done))
  }

  /** The pool is bounded, nothing was submitted at or after the deadline, and the results are
      the work's. */
  ghost predicate Bounded(e: World, w: Window) {
    && |w.inFlight| <= e.concurrency
    && |w.submitted| == |w.inFlight| + |w.done|
    && (forall i | 0 <= i < |w.submitted| :: w.submitted[i] < e.deadline)
    && (forall i | 0 <= i < |w.done| :: w.done[i].content == e.work(w.done[i].row))
  }

  predicate InPool(w: Window, k: Key) {
    exists j :: 0 <= j < |w.inFlight| && w.inFlight[j].key == k
  }

  /** The report lists only rows in flight. */
  ghost predicate Lists(w: Window) {
    forall k | k in w.listed :: InPool(w, k)
  }

  ghost predicate Keeps(e: World, rows: seq<Row>, w: Window) {
    Accounted(rows, w) && Bounded(e, w) && Lists(w)
  }

  lemma TakeLists(w: Window, now: int)
    requires Lists(w) && w.pending != []
    ensures Lists(Take(w, now))
  {
    var next := Take(w, now);
    assert next.inFlight[|w.inFlight|] == w.pending[0];
    forall k | k in next.listed ensures InPool(next, k) {
      if k != w.pending[0].key {
        var j :| 0 <= j < |w.inFlight| && w.inFlight[j].key == k;
        assert next.inFlight[j].key == k;
      }
    }
  }

  lemma TakeKeeps(e: World, rows: seq<Row>, w: Window)
    requires Keeps(e, rows, w) && w.pending != [] && |w.inFlight| < e.concurrency && e.clock(w.tick) < e.deadline
    ensures Keeps(e, rows, Take(w, e.clock(w.tick)))
  {
    hide Lists;
    TakeLists(w, e.clock(w.tick));
    assert w.pending == [w.pending[0]] + w.pending[1..];
  }

  lemma TickKeeps(e: World, rows: seq<Row>, w: Window)
    requires Keeps(e, rows, w)
    ensures Keeps(e, rows, Ticked(w))
  {
    forall k | k in w.listed ensures InPool(Ticked(w), k) {
      var j :| 0 <= j < |w.inFlight| && w.inFlight[j].key == k;
      assert Ticked(w).inFlight[j].key == k;
    }
  }

  lemma {:induction false} SubmitKeeps(e: World, rows: seq<Row>, w: Window)
    requires Keeps(e, rows, w)
    ensures Keeps(e, rows, Submit(e, w))
    decreases |w.pending|
  {
    hide Keeps;
    if w.pending == [] || |w.inFlight| >= e.concurrency {
    } else if e.clock(w.tick) >= e.deadline {
      TickKeeps(e, rows, w);
    } else {
      TakeKeeps(e, rows, w);
      SubmitKeeps(e, rows, Take(w, e.clock(w.tick)));
    }
  }

  lemma LandedLists(e: World, w: Window, j: nat)
    requires Lists(w) && j < |w.inFlight|
    ensures Lists(Landed(e, w, j))
  {
    var next := Landed(e, w, j);
    forall k | k in next.listed ensures InPool(next, k) {
      var i :| 0 <= i < |w.inFlight| && w.inFlight[i].key == k;
      assert next.inFlight[if i < j then i else i - 1] == w.inFlight[i];
    }
  }

  lemma LandedKeeps(e: World, rows: seq<Row>, w: Window, j: nat)
    requires Keeps(e, rows, w) && j < |w.inFlight|
    ensures Keeps(e, rows, Landed(e, w, j))
  {
    hide Lists, Without, RowsOf;
    LandedLists(e, w, j);
    PoolWithout(w.inFlight, j);
    RowsNext(w.done, Item(w.inFlight[j], e.work(w.inFlight[j])));
  }

  lemma PoolWithout(pool: seq<Row>, j: nat)
    requires j < |pool|
    ensures multiset(pool) == multiset(pool[..j] + pool[j + 1..]) + multiset{pool[j]}
  {
    assert pool == pool[..j] + [pool[j]] + pool[j + 1..];
  }

  lemma RowsNext(done: seq<Item>, item: Item)
    ensures RowsOf(done + [item]) == RowsOf(done) + [item.row]
  {
  }

  lemma {:induction false} LandAllKeeps(e: World, rows: seq<Row>, w: Window, picks: seq<nat>)
    requires Keeps(e, rows, w)
    ensures Keeps(e, rows, LandAll(e, w, picks))
    decreases |picks|
  {
    hide Keeps;
    if picks != [] && w.inFlight != [] {
      LandedKeeps(e, rows, w, picks[0] % |w.inFlight|);
      LandAllKeeps(e, rows, Landed(e, w, picks[0] % |w.inFlight|), picks[1..]);
    }
  }

  lemma {:induction false} LoopKeeps(e: World, rows: seq<Row>, w: Window)
    requires Keeps(e, rows, w)
    ensures Keeps(e, rows, Loop(e, w))
    decreases |w.pending| + |w.inFlight|
  {
    hide Keeps, Submit, LandAll;
    if w.inFlight != [] {
      TickKeeps(e, rows, w);
      if e.clock(w.tick) < e.deadline && e.completions(w.tick) != [] {
        var landed := LandAll(e, Ticked(w), e.completions(w.tick));
        LandAllKeeps(e, rows, Ticked(w), e.completions(w.tick));
        SubmitKeeps(e, rows, landed);
        LoopKeeps(e, rows, Submit(e, landed));
      }
    }
  }

  /** For any clock and any completion order. */
  lemma WindowKeeps(e: World, rows: seq<Row>, tick: nat)
    ensures Keeps(e, rows, Final(e, rows, tick))
  {
    hide Submit, Loop;
    assert RowsOf([]) == [];
    assert Keeps(e, rows, Opened(rows, tick));
    SubmitKeeps(e, rows, Opened(rows, tick));
    LoopKeeps(e, rows, Submit(e, Opened(rows, tick)));
  }

  // ----- how a window ends -----

  /** What the window adds to the report.  The list of unfinished rows is built by unpacking
      the futures of the pool, which fails if there are any: then nothing is recorded as not
      run, and the error leaves the function. */
  datatype Outcome = Outcome(results: seq<Item>, notRun: seq<Row>, raised: bool)

  function OutcomeOf(w: Window): Outcome {
    if w.inFlight != [] then Outcome(w.done, [], true) else Outcome(w.done, w.pending, false)
  }

  /** Every row ends exactly once in the results or among the rows not run. */
  ghost predicate Conserves(rows: seq<Row>, o: Outcome) {
    multiset(rows) == multiset(RowsOf(o.results)) + multiset(o.notRun)
  }

  /** Exactly when: rows are conserved iff no row is in flight when the loop stops, which is
      also when the window returns normally. */
  lemma ConservesExactly(e: World, rows: seq<Row>, tick: nat)
    ensures var o := OutcomeOf(Final(e, rows, tick));
            && (Conserves(rows, o) <==> Final(e, rows, tick).inFlight == [])
            && (Conserves(rows, o) <==> !o.raised)
  {
    hide Final, RowsOf;
    WindowKeeps(e, rows, tick);
    var w := Final(e, rows, tick);
    assert |multiset(rows)| == |rows|;
    if w.inFlight == [] {
      assert multiset(w.inFlight) == multiset{};
    } else {
      assert |multiset(rows)| == |w.pending| + |w.inFlight| + |RowsOf(w.done)|;
      assert |multiset(RowsOf(w.done)) + multiset([])| == |RowsOf(w.done)|;
    }
  }

  /** One row whose fetch outlasts the deadline: it is neither a result nor not run. */
  lemma DeadlineLosesRow(row: Row)
    ensures var e := World(n => if n == 0 then 0 else 10, 10, 3, n => [0], r => "");
            var o := OutcomeOf(Final(e, [row], 0)); o.raised && o.results == [] && o.notRun == []
  {
    var e := World(n => if n == 0 then 0 else 10, 10, 3, n => [0], r => "");
    var w := Window([], [row], [], [row.key], [0], 1);
    assert Take(Opened([row], 0), 0) == w;
    assert Submit(e, Opened([row], 0)) == Submit(e, w) == w;
    assert Loop(e, w) == w.(tick := 2);
  }

  /** After submitting, the pool is full or no row is pending, while there is time. */
  lemma {:induction false} SubmitFills(e: World, w: Window)
    requires forall n :: e.clock(n) < e.deadline
    ensures var r := Submit(e, w); r.pending == [] || |r.inFlight| >= e.concurrency
    decreases |w.pending|
  {
    if w.pending != [] && |w.inFlight| < e.concurrency {
      SubmitFills(e, Take(w, e.clock(w.tick)));
    }
  }

  lemma {:induction false} LoopInTime(e: World, w: Window)
    requires e.concurrency > 0 && forall n :: e.clock(n) < e.deadline && e.completions(n) != []
    requires w.pending == [] || |w.inFlight| >= e.concurrency
    ensures Loop(e, w).inFlight == [] && Loop(e, w).pending == []
    decreases |w.pending| + |w.inFlight|
  {
    hide Submit, LandAll;
    if w.inFlight != [] {
      var landed := LandAll(e, Ticked(w), e.completions(w.tick));
      SubmitFills(e, landed);
      LoopInTime(e, Submit(e, landed));
    }
  }

  /** While the clock stays before the deadline and every wait sees a completion, the window
      finishes every row. */
  lemma InTimeFinishesAll(e: World, rows: seq<Row>, tick: nat)
    requires e.concurrency > 0 && forall n :: e.clock(n) < e.deadline && e.completions(n) != []
    ensures Final(e, rows, tick).inFlight == [] && Final(e, rows, tick).pending == []
  {
    hide Submit, Loop;
    SubmitFills(e, Opened(rows, tick));
    LoopInTime(e, Submit(e, Opened(rows, tick)));
  }

  /** A window fails only because the deadline came or a wait timed out. */
  lemma FailsOnlyLate(e: World, rows: seq<Row>, tick: nat)
    requires e.concurrency > 0
    ensures OutcomeOf(Final(e, rows, tick)).raised ==> exists n :: e.clock(n) >= e.deadline || e.completions(n) == []
  {
    if forall n :: e.clock(n) < e.deadline && e.completions(n) != [] {
      InTimeFinishesAll(e, rows, tick);
    }
  }

  /** Whatever the rows, a window whose time is up after its first submission fails with that
      row in flight and nothing done. */
  lemma LateWindowFails(e: World, rows: seq<Row>, tick: nat)
    requires rows != [] && e.concurrency > 0 && e.clock(tick) < e.deadline
    requires forall n | n > tick :: e.clock(n) >= e.deadline
    ensures var w := Final(e, rows, tick); w.inFlight == [rows[0]] && w.done == []
  {
    var w := Take(Opened(rows, tick), e.clock(tick));
    assert Submit(e, Opened(rows, tick)) == Submit(e, w);
    assert Submit(e, w).inFlight == w.inFlight && Submit(e, w).tick > tick && Submit(e, w).done == [];
  }

  /** Whatever the rows, they are conserved for every clock and every completion only if there
      are none: a deadline that comes in flight always loses one. */
  lemma ConservedAlwaysExactly(rows: seq<Row>, tick: nat, concurrency: nat)
    requires concurrency > 0
    ensures (forall e: World | e.concurrency == concurrency :: Conserves(rows, OutcomeOf(Final(e, rows, tick))))
            <==> rows == []
  {
    hide Final, Conserves;
    if rows == [] {
      forall e: World | e.concurrency == concurrency ensures Conserves(rows, OutcomeOf(Final(e, rows, tick))) {
        EmptyWindow(e, tick);
        ConservesExactly(e, rows, tick);
      }
    } else {
      var e := World(n => if n <= tick then 0 else 10, 10, concurrency, n => [], r => "");
      LateWindowFails(e, rows, tick);
      ConservesExactly(e, rows, tick);
    }
  }

  // ----- the batch -----

  /** A line of the report's not-run list. */
  datatype Entry = Entry(key: Key, count: nat)

  /** A missing or zero count stands for one row. */
  function CountOf(entries: seq<Entry>): (n: nat)
    ensures n >= |entries|
  {
    if entries == [] then 0
    else
      var last := entries[|entries| - 1].count;
      CountOf(entries[..|entries| - 1]) + if last < 1 then 1 else last
  }

  /** Rows not run count one each, and a line of `count` rows that many. */
  lemma {:induction false} NotRunCounted(rows: seq<Row>, key: Key, count: nat)
    ensures CountOf(Entries(rows)) == |rows|
    ensures CountOf(Entries(rows) + [Entry(key, count)]) == |rows| + if count == 0 then 1 else count
  {
    if rows != [] {
      var n := |rows| - 1;
      NotRunCounted(rows[..n], key, count);
      assert Entries(rows)[..n] == Entries(rows[..n]);
    }
    assert (Entries(rows) + [Entry(key, count)])[..|rows|] == Entries(rows);
  }

  function Entries(rows: seq<Row>): seq<Entry> {
    seq(|rows|, i requires 0 <= i < |rows| => Entry(rows[i].key, 1))
  }

  function KeysOfRows(rows: seq<Row>): set<Key> {
    set i | 0 <= i < |rows| :: rows[i].key
  }

  function KeysOfItems(items: seq<Item>): set<Key> {
    set i | 0 <= i < |items| :: items[i].row.key
  }

  datatype Coverage = Coverage(loaded: nat, processed: nat, notRun: nat, fullyCovered: bool)

  /** The rows without a result, chosen or not. */
  function Rest(rows: seq<Row>, prior: set<Key>, select: Row -> bool, chosen: bool): (r: seq<Row>)
    ensures forall row :: row in r <==> row in rows && row.key !in prior && select(row) == chosen
  {
    if rows == [] then []
    else
      var row := rows[|rows| - 1];
      Rest(rows[..|rows| - 1], prior, select, chosen) + if row.key !in prior && select(row) == chosen then [row] else []
  }

  function Skipped(rows: seq<Row>, skip: Row -> string): seq<Item> {
    seq(|rows|, i requires 0 <= i < |rows| => Item(rows[i], skip(rows[i])))
  }

  /** Every smoke row has a result that agrees with it. */
  predicate SmokePassed(smoke: seq<Row>, results: seq<Item>, agrees: (Row, seq<Item>) -> bool) {
    forall i | 0 <= i < |smoke| :: smoke[i].key in KeysOfItems(results) && agrees(smoke[i], results)
  }

  /** What a batch comes to: whether a window failed, whether the smoke check passed, the
      finished rows, and those recorded as not run. */
  datatype Batch = Batch(raised: bool, passed: bool, finished: seq<Item>, left: seq<Row>)

  /** The smoke window, then the others if every smoke row has a result that agrees. */
  function BatchOf(e: World, candidates: seq<Row>, smokeCount: nat, agrees: (Row, seq<Item>) -> bool,
                   before: seq<Item>, tick: nat): Batch {
    var smoke := Smoke(candidates, smokeCount);
    var others, w := candidates[|smoke|..], Final(e, smoke, tick);
    if w.inFlight != [] then Batch(true, true, w.done, [])
    else if !SmokePassed(smoke, before + w.done, agrees) then Batch(false, false, w.done, w.pending + others)
    else
      var v := Final(e, others, w.tick);
      if v.inFlight != [] then Batch(true, true, w.done + v.done, w.pending)
      else Batch(false, true, w.done + v.done, w.pending + v.pending)
  }

  /** All that a batch depends on beside its world: the loaded rows and their scope, the smoke
      count, the selection, and the resumed report with its claim of full coverage. */
  datatype Load = Load(rows: seq<Row>, scopeTotal: nat, smokeCount: nat, select: Row -> bool, skip: Row -> string,
                       agrees: (Row, seq<Item>) -> bool, before: seq<Item>, claim: bool, tick: nat)

  function Candidates(x: Load): seq<Row> {
    Rest(x.rows, KeysOfItems(x.before), x.select, true)
  }

  /** The results before the first window. */
  function Known(x: Load): seq<Item> {
    x.before + Skipped(Rest(x.rows, KeysOfItems(x.before), x.select, false), x.skip)
  }

  function BatchIn(e: World, x: Load): Batch {
    BatchOf(e, Candidates(x), x.smokeCount, x.agrees, Known(x), x.tick)
  }

  /** The claim of full coverage in the report afterwards: an error leaves the earlier one. */
  predicate ClaimAfter(e: World, x: Load) {
    if BatchIn(e, x).raised then x.claim else x.scopeTotal == |KeysOfRows(x.rows)| && BatchIn(e, x).left == []
  }

  class Report {
    var results: seq<Item>
    var inFlight: seq<Key>
    var notRun: seq<Entry>
    var pending: seq<Row>
    var pool: seq<Row>
    var tick: nat
    var coverage: Coverage
    ghost var base: nat
    ghost var submitted: seq<int>

    constructor ()
      ensures results == [] && notRun == [] && inFlight == []
    {
      results, inFlight, notRun, pending, pool, tick := [], [], [], [], [], 0;
      coverage := Coverage(0, 0, 0, false);
      base, submitted := 0, [];
    }

    /** The running window: its results are those past `base`. */
    ghost function State(): Window
      reads this
    {
      Window(pending, pool, if base <= |results| then results[base..] else [], inFlight, submitted, tick)
    }

    method SubmitAvailable(e: World)
      modifies `pending, `pool, `inFlight, `submitted, `tick
      ensures State() == Submit(e, old(State()))
    {
      ghost var was := State();
      while pending != [] && |pool| < e.concurrency
        invariant Submit(e, State()) == Submit(e, was)
        decreases |pending|
      {
        ghost var before := State();
        var now := e.clock(tick);
        tick := tick + 1;
        if now >= e.deadline {
          assert State() == before.(tick := before.tick + 1);
          return;
        }
        var row := pending[0];
        pending, pool, inFlight := pending[1..], pool + [row], inFlight + [row.key];
        submitted := submitted + [now];
        assert State() == Take(before, now);
      }
    }

    method LandDone(e: World, picks: seq<nat>)
      requires base <= |results|
      modifies `pool, `results, `inFlight
      ensures State() == LandAll(e, old(State()), picks)
      ensures base <= |results| && results[..base] == old(results[..base])
    {
      hide LandAll, Without, Submit, Loop;
      ghost var was := State();
      var k := 0;
      assert picks[k..] == picks;
      while k < |picks| && pool != []
        invariant 0 <= k <= |picks| && base <= |results| && results[..base] == old(results[..base])
        invariant LandAll(e, State(), picks[k..]) == LandAll(e, was, picks)
      {
        ghost var before := State();
        LandStep(e, before, picks[k..]);
        var j := picks[k] % |pool|;
        var row := pool[j];
        pool, results := pool[..j] + pool[j + 1..], results + [Item(row, e.work(row))];
        inFlight := Without(inFlight, row.key);
        assert State() == Landed(e, before, j) by {
          assert results[base..] == before.done + [Item(row, e.work(row))];
        }
        assert picks[k..][1..] == picks[k + 1..];
        k := k + 1;
      }
      LandIdle(e, State(), picks[k..]);
    }

    /** The window as a loop over the pool.  It adds its outcome to the report. */
    method RunWindow(e: World, rows: seq<Row>) returns (raised: bool, left: seq<Row>)
      requires inFlight == []
      modifies this
      ensures coverage == old(coverage)
      ensures var w := Final(e, rows, old(tick));
              && raised == OutcomeOf(w).raised && left == OutcomeOf(w).notRun
                && results == old(results) + OutcomeOf(w).results
              && notRun == old(notRun) + Entries(OutcomeOf(w).notRun)
              && inFlight == (if raised then w.listed else []) && tick == w.tick
    {
      hide Submit, LandAll, Loop;
      pending, pool, base, submitted := rows, [], |results|, [];
      ghost var w := Opened(rows, tick);
      assert State() == w;
      SubmitAvailable(e);
      var running := true;
      while running && pool != []
        invariant base == |old(results)| <= |results| && results[..base] == old(results)
        invariant notRun == old(notRun) && coverage == old(coverage)
        invariant running ==> Loop(e, State()) == Final(e, rows, old(tick))
        invariant !running ==> State() == Final(e, rows, old(tick)) && pool != []
        decreases running, |pending| + |pool|
      {
        ghost var before := State();
        LoopStep(e, before);
        var now, picks := e.clock(tick), e.completions(tick);
        tick := tick + 1;
        assert State() == Ticked(before);
        if now >= e.deadline || picks == [] {
          running := false;
        } else {
          LandDone(e, picks);
          SubmitAvailable(e);
        }
      }
      assert State() == Final(e, rows, old(tick)) by {
        if running { LoopIdle(e, State()); }
      }
      WindowKeeps(e, rows, old(tick));
      assert results == old(results) + results[base..];
      raised, left := pool != [], [];
      if !raised {
        left := pending;
        notRun := notRun + Entries(pending);
        assert inFlight == [] by { ListedOnlyInFlight(State()); }
      }
    }

    /** The smoke window, then the others if every smoke row has a result that agrees. */
    method RunCandidates(e: World, candidates: seq<Row>, smokeCount: nat, agrees: (Row, seq<Item>) -> bool)
      returns (raised: bool, passed: bool, finished: seq<Item>, left: seq<Row>)
      requires inFlight == [] && notRun == []
      modifies this
      ensures coverage == old(coverage) && results == old(results) + finished
      ensures Batch(raised, passed, finished, left)
              == BatchOf(e, candidates, smokeCount, agrees, old(results), old(tick))
      ensures Finished(e, candidates, finished)
      ensures !raised ==> inFlight == [] && notRun == Entries(left)
      ensures !raised ==> multiset(candidates) == multiset(RowsOf(finished)) + multiset(left)
      ensures !raised && passed ==> forall row | row in Smoke(candidates, smokeCount) :: row.key in KeysOfItems(results)
      ensures !raised && !passed ==> Finished(e, Smoke(candidates, smokeCount), finished)
                                     && !SmokePassed(Smoke(candidates, smokeCount), results, agrees)
    {
      hide Final, SmokePassed, Finished, Keeps, KeysOfItems, RowsOf, Entries;
      var from, smoke := |results|, Smoke(candidates, smokeCount);
      var others := candidates[|smoke|..];
      assert candidates == smoke + others;
      WindowOutcome(e, smoke, tick);
      raised, left := RunWindow(e, smoke);
      finished, passed := results[from..], true;
      NoRows();
      FinishedConcat(e, smoke, others, finished, []);
      assert finished + [] == finished && results == old(results) + finished;
      if raised { return; }
      assert notRun == Entries(left);
      passed := SmokePassed(smoke, results, agrees);
      EntriesConcat(left, others);
      if !passed {
        notRun, left := notRun + Entries(others), left + others;
        return;
      }
      SmokeHasResults(smoke, results, agrees);
      ghost var first, shown := finished, results;
      var rest := left;
      WindowOutcome(e, others, tick);
      raised, left := RunWindow(e, others);
      ghost var second := results[|shown|..];
      finished := results[from..];
      assert results == shown + second && finished == first + second;
      FinishedConcat(e, smoke, others, first, second);
      KeysGrow(shown, second);
      EntriesConcat(rest, left);
      left := rest + left;
    }

    /** The coverage report.  Rows outside the loaded scope add a line to the not-run list. */
    method Cover(rows: seq<Row>, scopeTotal: nat)
      modifies `notRun, `coverage
      ensures coverage.fullyCovered
              <==> && scopeTotal == |KeysOfRows(rows)| && KeysOfRows(rows) <= KeysOfItems(results)
                   && old(notRun) == [] && inFlight == []
      ensures coverage.loaded == |KeysOfRows(rows)| && coverage.processed == |KeysOfRows(rows) * KeysOfItems(results)|
      ensures coverage.notRun == CountOf(old(notRun)) + if scopeTotal > coverage.loaded
              then scopeTotal - coverage.loaded else 0
    {
      hide KeysOfRows, KeysOfItems;
      var loaded, resulted := KeysOfRows(rows), KeysOfItems(results);
      if scopeTotal > |loaded| {
        notRun := notRun + [Entry(Key("", ""), scopeTotal - |loaded|)];
        assert notRun[..|notRun| - 1] == old(notRun);
      }
      SharedSize(loaded, resulted);
      coverage := Coverage(|loaded|, |loaded * resulted|, CountOf(notRun),
                           scopeTotal == |loaded| && |loaded * resulted| == |loaded| && CountOf(notRun) == 0
                             && inFlight == []);
    }

    /** The batch.  Rows with a result are left alone, rows not selected get a skipped record,
        the first candidates form a smoke window and the others follow if it passed.  Either the
        window's error leaves the batch before the coverage is written, or every candidate is
        finished or not run, and the report claims full coverage exactly when the loaded rows
        are the whole scope and none was left. */
    method RunBatch(e: World, rows: seq<Row>, scopeTotal: nat, smokeCount: nat, select: Row -> bool,
                    skip: Row -> string,
                    agrees: (Row, seq<Item>) -> bool)
      returns (raised: bool, passed: bool, finished: seq<Item>, left: seq<Row>)
      modifies this
      ensures var prior := KeysOfItems(old(results));
              var candidates := Rest(rows, prior, select, true);
              var skipped := Skipped(Rest(rows, prior, select, false), skip);
              && results == old(results) + skipped + finished
              && Batch(raised, passed, finished, left)
                == BatchOf(e, candidates, smokeCount, agrees, old(results) + skipped, old(tick))
              && Finished(e, candidates, finished)
              && (!raised ==> multiset(candidates) == multiset(RowsOf(finished)) + multiset(left))
              && (!raised && !passed ==> Finished(e, Smoke(candidates, smokeCount), finished))
      // after an error the report keeps the earlier claim of coverage beside the new row count
      ensures var x := Load(rows, scopeTotal, smokeCount, select, skip, agrees, old(results),
                            old(coverage.fullyCovered), old(tick));
              coverage.fullyCovered == ClaimAfter(e, x) && results == Known(x) + BatchIn(e, x).finished
      ensures raised ==> coverage == old(coverage).(loaded := |KeysOfRows(rows)|)
      ensures !raised ==> inFlight == []
      ensures !raised ==> (coverage.fullyCovered <==> scopeTotal == |KeysOfRows(rows)| && left == [])
      ensures !raised && coverage.fullyCovered ==> KeysOfRows(rows) <= KeysOfItems(results)
      ensures !raised ==>
                && coverage.loaded == |KeysOfRows(rows)|
                && coverage.processed == |KeysOfRows(rows) * KeysOfItems(results)|
                && coverage.notRun ==
                     |left| + if scopeTotal > coverage.loaded then scopeTotal - coverage.loaded else 0
    {
      hide Finished, KeysOfItems, KeysOfRows, RowsOf, Rest, SmokePassed, Smoke, Skipped;
      var prior := KeysOfItems(results);
      notRun, inFlight, coverage := [], [], coverage.(loaded := |KeysOfRows(rows)|);
      var candidates, others := Rest(rows, prior, select, true), Rest(rows, prior, select, false);
      var skipped := Skipped(others, skip);
      results := results + skipped;
      raised, passed, finished, left := RunCandidates(e, candidates, smokeCount, agrees);
      if raised { return; }
      if left == [] {
        EveryRowHasResult(rows, old(results), select, skip, finished);
      }
      NotRunCounted(left, Key("", ""), 0);
      Cover(rows, scopeTotal);
    }
  }

  ghost predicate Finished(e: World, rows: seq<Row>, items: seq<Item>) {
    forall i | 0 <= i < |items| :: items[i].row in rows && items[i].content == e.work(items[i].row)
  }

  function Smoke(candidates: seq<Row>, count: nat): seq<Row> {
    if |candidates| < count then candidates else candidates[..count]
  }

  // ----- when the claim of full coverage can be trusted -----

  /** A claim of full coverage is true: every loaded row has a result. */
  ghost predicate Sound(e: World, x: Load) {
    ClaimAfter(e, x) ==> KeysOfRows(x.rows) <= KeysOfItems(Known(x) + BatchIn(e, x).finished)
  }

  /** Some candidate has a key that no result has yet. */
  predicate Uncovered(x: Load) {
    exists i :: 0 <= i < |Candidates(x)| && Candidates(x)[i].key !in KeysOfItems(Known(x))
  }

  lemma BatchConserves(e: World, candidates: seq<Row>, smokeCount: nat, agrees: (Row, seq<Item>) -> bool,
                       before: seq<Item>, tick: nat)
    ensures var b := BatchOf(e, candidates, smokeCount, agrees, before, tick);
            !b.raised ==> multiset(candidates) == multiset(RowsOf(b.finished)) + multiset(b.left)
  {
    hide Final, SmokePassed, RowsOf, Finished;
    var smoke := Smoke(candidates, smokeCount);
    var others, w := candidates[|smoke|..], Final(e, smoke, tick);
    assert candidates == smoke + others;
    WindowOutcome(e, smoke, tick);
    WindowOutcome(e, others, w.tick);
    FinishedConcat(e, smoke, others, w.done, Final(e, others, w.tick).done);
  }

  /** Exactly when: whatever the clock and the completions, a claim of full coverage is true
      iff the resumed report did not already make it beside a candidate without a result. */
  lemma ClaimSoundExactly(x: Load, concurrency: nat)
    requires concurrency > 0
    ensures (forall e: World | e.concurrency == concurrency :: Sound(e, x)) <==> !(x.claim && Uncovered(x))
  {
    hide BatchOf, Sound, Uncovered;
    if x.claim && Uncovered(x) {
      var e := World(n => if n <= x.tick then 0 else 10, 10, concurrency, n => [], r => "");
      LateBatchFails(e, x);
      assert !Sound(e, x);
    } else {
      forall e: World | e.concurrency == concurrency ensures Sound(e, x) {
        ClaimHolds(e, x);
      }
    }
  }

  lemma ClaimHolds(e: World, x: Load)
    requires !(x.claim && Uncovered(x))
    ensures Sound(e, x)
  {
    hide BatchOf, RowsOf, Rest, Skipped, KeysOfRows, KeysOfItems;
    var b := BatchIn(e, x);
    if ClaimAfter(e, x) {
      if b.raised {
        AllCovered(x);
        KeysGrow(Known(x), b.finished);
      } else {
        BatchConserves(e, Candidates(x), x.smokeCount, x.agrees, Known(x), x.tick);
        EveryRowHasResult(x.rows, x.before, x.select, x.skip, b.finished);
      }
    }
  }

  lemma AllCovered(x: Load)
    requires !Uncovered(x)
    ensures KeysOfRows(x.rows) <= KeysOfItems(Known(x))
  {
    var others := Rest(x.rows, KeysOfItems(x.before), x.select, false);
    KeysGrow(x.before, Skipped(others, x.skip));
    forall k | k in KeysOfRows(x.rows) ensures k in KeysOfItems(Known(x)) {
      var i :| 0 <= i < |x.rows| && x.rows[i].key == k;
      if k !in KeysOfItems(x.before) {
        if x.select(x.rows[i]) {
          assert x.rows[i] in Candidates(x);
          var j :| 0 <= j < |Candidates(x)| && Candidates(x)[j] == x.rows[i];
        } else {
          var j :| 0 <= j < |others| && others[j] == x.rows[i];
          assert Skipped(others, x.skip)[j].row.key == k;
        }
      }
    }
  }

  /** Time that is up after the first submission: the batch fails and finishes nothing. */
  lemma LateBatchFails(e: World, x: Load)
    requires x.claim && Uncovered(x) && e.concurrency > 0
    requires e.clock(x.tick) < e.deadline && forall n | n > x.tick :: e.clock(n) >= e.deadline
    ensures BatchIn(e, x).raised && BatchIn(e, x).finished == [] && !Sound(e, x)
  {
    hide Final, Rest, Skipped;
    var candidates := Candidates(x);
    var smoke := Smoke(candidates, x.smokeCount);
    var i :| 0 <= i < |candidates| && candidates[i].key !in KeysOfItems(Known(x));
    if smoke != [] {
      LateWindowFails(e, smoke, x.tick);
    } else {
      EmptyWindow(e, x.tick);
      assert candidates[|smoke|..] == candidates;
      LateWindowFails(e, candidates, x.tick);
    }
    assert BatchIn(e, x).finished == [];
    assert Known(x) + [] == Known(x);
    assert candidates[i] in candidates && candidates[i] in x.rows;
    var j :| 0 <= j < |x.rows| && x.rows[j] == candidates[i];
    assert x.rows[j].key in KeysOfRows(x.rows);
  }

  lemma EmptyWindow(e: World, tick: nat)
    ensures Final(e, [], tick) == Opened([], tick)
  {
  }

  /** A batch in time does not fail, and leaves only what a failed smoke check keeps back. */
  lemma BatchInTime(e: World, x: Load)
    requires e.concurrency > 0 && forall n :: e.clock(n) < e.deadline && e.completions(n) != []
    ensures !BatchIn(e, x).raised && (BatchIn(e, x).passed ==> BatchIn(e, x).left == [])
  {
    hide Final, SmokePassed;
    var candidates := Candidates(x);
    var smoke := Smoke(candidates, x.smokeCount);
    InTimeFinishesAll(e, smoke, x.tick);
    InTimeFinishesAll(e, candidates[|smoke|..], Final(e, smoke, x.tick).tick);
  }

  /** Two sessions, the second with a new row that outlasts the deadline: the report says that
      everything is covered, and the row has no result. */
  method StaleRun(row: Row) returns (report: Report)
    ensures fresh(report) && report.coverage.fullyCovered && row.key !in KeysOfItems(report.results)
  {
    hide BatchOf;
    report := new Report();
    var idle := World(n => 0, 10, 3, n => [], r => "");
    EmptyBatch(idle, 3, [], report.tick);
    var _, _, _, _ := report.RunBatch(idle, [], 0, 3, r => true, r => "", (r, items) => true);
    var t, before := report.tick, report.results;
    assert before == [];
    assert report.coverage.fullyCovered;
    var late := World(n => if n <= t then 0 else 10, 10, 3, n => [], r => "");
    ghost var x := Load([row], 1, 3, r => true, r => "", (r, items) => true, [], true, t);
    OneCandidate(x, row);
    LateBatchFails(late, x);
    var _, _, _, _ := report.RunBatch(late, [row], 1, 3, r => true, r => "", (r, items) => true);
  }

  lemma EmptyBatch(e: World, smokeCount: nat, before: seq<Item>, tick: nat)
    ensures BatchOf(e, [], smokeCount, (r, items) => true, before, tick) == Batch(false, true, [], [])
  {
    EmptyWindow(e, tick);
  }

  lemma OneCandidate(x: Load, row: Row)
    requires x.rows == [row] && x.before == [] && x.select(row)
    ensures Known(x) == [] && Uncovered(x)
  {
    var others := Rest(x.rows, KeysOfItems(x.before), x.select, false);
    assert x.rows[..|x.rows| - 1] == [] && x.rows[|x.rows| - 1] == row;
    assert Rest([], KeysOfItems(x.before), x.select, false) == [];
    assert others == [];
    assert row in Candidates(x);
    var i :| 0 <= i < |Candidates(x)| && Candidates(x)[i] == row;
  }

  lemma WindowOutcome(e: World, rows: seq<Row>, tick: nat)
    ensures var o := OutcomeOf(Final(e, rows, tick));
            && Finished(e, rows, o.results)
            && (!o.raised ==> multiset(rows) == multiset(RowsOf(o.results)) + multiset(o.notRun))
  {
    hide Final;
    WindowKeeps(e, rows, tick);
    ConservesExactly(e, rows, tick);
    var w := Final(e, rows, tick);
    forall i | 0 <= i < |w.done| ensures w.done[i].row in rows {
      assert RowsOf(w.done)[i] in multiset(RowsOf(w.done));
      assert w.done[i].row in multiset(rows);
    }
  }

  lemma FinishedConcat(e: World, a: seq<Row>, b: seq<Row>, first: seq<Item>, second: seq<Item>)
    requires Finished(e, a, first) && Finished(e, b, second)
    ensures Finished(e, a + b, first + second) && RowsOf(first + second) == RowsOf(first) + RowsOf(second)
  {
  }

  lemma EntriesConcat(a: seq<Row>, b: seq<Row>)
    ensures Entries(a + b) == Entries(a) + Entries(b) && Entries([]) == []
  {
  }

  /** The smoke rows are the first `count` candidates. */
  lemma SmokeExactly(candidates: seq<Row>, count: nat, results: seq<Item>, agrees: (Row, seq<Item>) -> bool)
    ensures SmokePassed(Smoke(candidates, count), results, agrees) <==>
              forall i | 0 <= i < |candidates| && i < count ::
                candidates[i].key in KeysOfItems(results) && agrees(candidates[i], results)
  {
    hide KeysOfItems;
    var smoke := Smoke(candidates, count);
    assert forall i | 0 <= i < |candidates| && i < count :: i < |smoke| && smoke[i] == candidates[i];
  }

  lemma SmokeHasResults(smoke: seq<Row>, results: seq<Item>, agrees: (Row, seq<Item>) -> bool)
    requires SmokePassed(smoke, results, agrees)
    ensures forall row | row in smoke :: row.key in KeysOfItems(results)
  {
  }

  lemma KeysGrow(items: seq<Item>, more: seq<Item>)
    ensures KeysOfItems(items) <= KeysOfItems(items + more) && KeysOfItems(more) <= KeysOfItems(items + more)
  {
    forall k | k in KeysOfItems(items) ensures k in KeysOfItems(items + more) {
      var i :| 0 <= i < |items| && items[i].row.key == k;
      assert (items + more)[i] == items[i];
    }
    forall k | k in KeysOfItems(more) ensures k in KeysOfItems(items + more) {
      var i :| 0 <= i < |more| && more[i].row.key == k;
      assert (items + more)[|items| + i] == more[i];
    }
  }

  lemma SharedSize(a: set<Key>, b: set<Key>)
    ensures |a * b| == |a| <==> a <= b
  {
    assert a == (a * b) + (a - b);
    if a <= b {
      assert a * b == a;
    }
  }

  /** With no candidate left, every loaded row has a result: an earlier one, a skipped record or
      a finished one. */
  lemma EveryRowHasResult(rows: seq<Row>, before: seq<Item>, select: Row -> bool, skip: Row -> string,
                          finished: seq<Item>)
    requires multiset(Rest(rows, KeysOfItems(before), select, true)) == multiset(RowsOf(finished))
    ensures KeysOfRows(rows) <= KeysOfItems(before + Skipped(Rest(rows, KeysOfItems(before), select, false), skip)
                                            + finished)
  {
    var prior := KeysOfItems(before);
    var candidates, others := Rest(rows, prior, select, true), Rest(rows, prior, select, false);
    var skipped := Skipped(others, skip);
    KeysGrow(before, skipped);
    KeysGrow(before + skipped, finished);
    forall k | k in KeysOfRows(rows) ensures k in KeysOfItems(before + skipped + finished) {
      var i :| 0 <= i < |rows| && rows[i].key == k;
      HasResult(rows[i], candidates, others, skip, finished, prior, select(rows[i]));
    }
  }

  lemma HasResult(row: Row, candidates: seq<Row>, others: seq<Row>, skip: Row -> string, finished: seq<Item>,
                  prior: set<Key>, chosen: bool)
    requires row.key !in prior ==> row in (if chosen then candidates else others)
    requires multiset(candidates) == multiset(RowsOf(finished))
    ensures row.key in prior || row.key in KeysOfItems(Skipped(others, skip)) || row.key in KeysOfItems(finished)
  {
    if row.key !in prior {
      if chosen {
        assert row in multiset(candidates);
        assert row in RowsOf(finished);
        var i :| 0 <= i < |RowsOf(finished)| && RowsOf(finished)[i] == row;
        assert finished[i].row.key == row.key;
      } else {
        var i :| 0 <= i < |others| && others[i] == row;
        assert Skipped(others, skip)[i].row.key == row.key;
      }
    }
  }

  lemma NoRows()
    ensures RowsOf([]) == []
  {
  }

  lemma LandStep(e: World, w: Window, picks: seq<nat>)
    requires picks != [] && w.inFlight != []
    ensures LandAll(e, w, picks) == LandAll(e, Landed(e, w, picks[0] % |w.inFlight|), picks[1..])
  {
  }

  lemma LandIdle(e: World, w: Window, picks: seq<nat>)
    requires picks == [] || w.inFlight == []
    ensures LandAll(e, w, picks) == w
  {
  }

  lemma LoopStep(e: World, w: Window)
    requires w.inFlight != []
    ensures if e.clock(w.tick) >= e.deadline || e.completions(w.tick) == [] then Loop(e, w) == Ticked(w)
            else Loop(e, w) == Loop(e, Submit(e, LandAll(e, Ticked(w), e.completions(w.tick))))
  {
  }

  lemma LoopIdle(e: World, w: Window)
    requires w.inFlight == []
    ensures Loop(e, w) == w
  {
  }

  lemma ListedOnlyInFlight(w: Window)
    requires Lists(w)
    ensures w.listed != [] ==> w.inFlight != []
  {
    if w.listed != [] {
      assert InPool(w, w.listed[0]);
    }
  }
}
