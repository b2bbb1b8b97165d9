/** The budgeted, crash-safe evaluation: each call reserves a slot in the checkpoint before it
    starts; a session that finds a reserved slot without a saved result charges it and never
    retries it.

    `World` joins what is on disk (checkpoint and result files) with the history of what
    happened.  Time is counted in whole units; `slack` is all time that passed outside calls
    or beyond a call's own slot. */
module JdRepairEval {
  import opened Wrappers

  datatype Slot = Slot(key: string, reserved: nat)

  /** How far the call of the reserved slot got. */
  datatype Stage = Reserved | Calling | Returned | Saved

  datatype World = World(
    elapsed: nat, slot: Option<Slot>, interrupted: seq<string>, saved: set<string>,
    stage: Stage, took: nat, calls: seq<string>, charges: seq<nat>,
    clocked: nat, spent: nat, slack: nat, lost: nat)

  const START := World(0, None, [], {}, Reserved, 0, [], [], 0, 0, 0, 0)

  function Sum(s: seq<nat>): nat {
    if s == [] then 0 else Sum(s[..|s| - 1]) + s[|s| - 1]
  }

  predicate Unique(s: seq<string>) {
    forall i, j | 0 <= i < j < |s| :: s[i] != s[j]
  }

  // ----- the protocol: one durable or irrevocable action at a time -----

  /** A session opens the checkpoint.  A reserved slot without a result is charged in full;
      one whose result was saved is released without a charge. */
  function Reopened(w: World): World {
    match w.slot
    case None => w
    case Some(slot) =>
      if slot.key !in w.saved then
        w.(interrupted := w.interrupted + [slot.key], elapsed := w.elapsed + slot.reserved,
           charges := w.charges + [slot.reserved], slot := None)
      else w.(slot := None, lost := w.lost + w.took)
  }

  /** A slot is reserved only if all of it fits in the budget. */
  predicate Reserving(selected: seq<string>, budget: nat, w: World, w': World, slot: Slot, idle: nat) {
    && w.slot == None && slot.key in selected && slot.key !in w.saved && slot.key !in w.interrupted
    && w.elapsed + idle + slot.reserved <= budget
    && w' == w.(elapsed := w.elapsed + idle, clocked := w.clocked + idle, slack := w.slack + idle,
                slot := Some(slot), stage := Reserved, took := 0)
  }

  function Called(w: World): World
    requires w.slot.Some?
  {
    w.(stage := Calling, calls := w.calls + [w.slot.value.key])
  }

  function ReturnedAfter(w: World, d: nat): World
    requires w.slot.Some?
  {
    var r := w.slot.value.reserved;
    w.(stage := Returned, took := d, spent := w.spent + d, slack := w.slack + if d > r then d - r else 0)
  }

  function ResultSaved(w: World): World
    requires w.slot.Some?
  {
    w.(stage := Saved, saved := w.saved + {w.slot.value.key})
  }

  /** The checkpoint records the clock and frees the slot. */
  function Recorded(w: World, idle: nat): World {
    var more := idle + if w.slot.Some? then w.took else 0;
    w.(elapsed := w.elapsed + more, clocked := w.clocked + more, slack := w.slack + idle, slot := None)
  }

  ghost predicate Step(selected: seq<string>, budget: nat, w: World, w': World) {
    || w' == Reopened(w)
    || (exists slot, idle: nat :: Reserving(selected, budget, w, w', slot, idle))
    || (w.slot.Some? && w.stage == Reserved && w' == Called(w))
    || (w.slot.Some? && w.stage == Calling && exists d: nat :: w' == ReturnedAfter(w, d))
    || (w.slot.Some? && w.stage == Returned && w' == ResultSaved(w))
    || ((w.slot.Some? ==> w.stage == Saved) && exists idle: nat :: w' == Recorded(w, idle))
  }

  /** Any sequence of actions and crashes, a crash being followed by a reopening. */
  ghost predicate Run(selected: seq<string>, budget: nat, run: seq<World>) {
    run != [] && forall k | 0 <= k < |run| - 1 :: Step(selected, budget, run[k], run[k + 1])
  }

  /** No key is called twice; each is saved, charged, or the one in flight. */
  ghost predicate CalledOnce(w: World) {
    && Unique(w.calls) && Unique(w.interrupted)
    && (forall k | k in w.calls ::
          k in w.saved || k in w.interrupted || (w.slot.Some? && w.slot.value.key == k && w.stage != Reserved))
    && (forall k | k in w.saved :: k in w.calls && k !in w.interrupted)
    && (w.slot.Some? ==>
          var k := w.slot.value.key;
          && k !in w.interrupted
          && (k in w.saved <==> w.stage == Saved)
          && (k in w.calls <==> w.stage != Reserved))
  }

  /** Recorded time is clocked time plus one charge per interrupted slot; it stays within the
      budget but for slack; and it covers the time spent in calls but for what was lost. */
  ghost predicate Accounted(budget: nat, w: World) {
    && |w.charges| == |w.interrupted| && w.elapsed == w.clocked + Sum(w.charges)
    && w.elapsed <= budget + w.slack
    && (w.slot.Some? ==> w.elapsed + w.slot.value.reserved <= budget)
    && (w.slot.Some? && w.stage in {Returned, Saved} ==> w.took <= w.slot.value.reserved + w.slack)
    && (w.slot.Some? && w.stage in {Reserved, Calling} ==> w.took == 0)
    && w.spent <= w.elapsed + w.lost + w.slack +
         (if w.slot.Some? then if w.took < w.slot.value.reserved then w.took else w.slot.value.reserved else 0)
  }

  lemma StepCalledOnce(selected: seq<string>, budget: nat, w: World, w': World)
    requires CalledOnce(w) && Step(selected, budget, w, w')
    ensures CalledOnce(w')
  {
  }

  lemma ReopenedAccounted(budget: nat, w: World)
    requires Accounted(budget, w)
    ensures Accounted(budget, Reopened(w))
  {
    if |Reopened(w).charges| > |w.charges| {
      assert Reopened(w).charges[..|w.charges|] == w.charges;
    }
  }

  lemma ReservedAccounted(selected: seq<string>, budget: nat, w: World, w': World, slot: Slot, idle: nat)
    requires Accounted(budget, w) && Reserving(selected, budget, w, w', slot, idle)
    ensures Accounted(budget, w')
  {
    hide Sum;
  }

  lemma ReturnedAccounted(budget: nat, w: World, d: nat)
    requires Accounted(budget, w) && w.slot.Some? && w.stage == Calling
    ensures Accounted(budget, ReturnedAfter(w, d))
  {
    hide Sum;
  }

  lemma RecordedAccounted(budget: nat, w: World, idle: nat)
    requires Accounted(budget, w) && (w.slot.Some? ==> w.stage == Saved)
    ensures Accounted(budget, Recorded(w, idle))
  {
    hide Sum;
  }

  lemma StepAccounted(selected: seq<string>, budget: nat, w: World, w': World)
    requires Accounted(budget, w) && Step(selected, budget, w, w')
    ensures Accounted(budget, w')
  {
    hide Sum, Reopened, Reserving, Recorded, ReturnedAfter;
    if w' == Reopened(w) {
      ReopenedAccounted(budget, w);
    } else if exists slot, idle: nat :: Reserving(selected, budget, w, w', slot, idle) {
      var slot, idle: nat :| Reserving(selected, budget, w, w', slot, idle);
      ReservedAccounted(selected, budget, w, w', slot, idle);
    } else if w.slot.Some? && w.stage == Calling && exists d: nat :: w' == ReturnedAfter(w, d) {
      var d: nat :| w' == ReturnedAfter(w, d);
      ReturnedAccounted(budget, w, d);
    } else if (w.slot.Some? ==> w.stage == Saved) && exists idle: nat :: w' == Recorded(w, idle) {
      var idle: nat :| w' == Recorded(w, idle);
      RecordedAccounted(budget, w, idle);
    }
  }

  lemma StartIsSafe(budget: nat)
    ensures CalledOnce(START) && Accounted(budget, START)
  {
  }

  /** Over all sessions and crashes: the fetcher is called at most once per key, each
      interrupted slot is charged exactly once, and recorded time exceeds the budget by no
      more than the slack. */
  lemma {:induction false} RunIsSafe(selected: seq<string>, budget: nat, run: seq<World>)
    requires Run(selected, budget, run) && run[0] == START
    ensures forall k | 0 <= k < |run| :: CalledOnce(run[k]) && Accounted(budget, run[k])
  {
    hide Step, CalledOnce, Accounted;
    if |run| == 1 {
      StartIsSafe(budget);
    } else {
      var n := |run| - 1;
      RunIsSafe(selected, budget, run[..n]);
      assert run[..n][n - 1] == run[n - 1];
      StepCalledOnce(selected, budget, run[n - 1], run[n]);
      StepAccounted(selected, budget, run[n - 1], run[n]);
      forall k | 0 <= k < |run| ensures CalledOnce(run[k]) && Accounted(budget, run[k]) {
        if k < n { assert run[..n][k] == run[k]; }
      }
    }
  }

  /** If every call stays within its slot and the clock moves only inside calls, recorded time
      never exceeds the budget, and the time spent in calls exceeds it by no more than what
      crashes between saving and recording lost. */
  lemma BudgetHolds(selected: seq<string>, budget: nat, run: seq<World>, k: nat)
    requires Run(selected, budget, run) && run[0] == START && k < |run| && run[k].slack == 0
    ensures run[k].elapsed <= budget
    ensures run[k].spent <= budget + run[k].lost
  {
    RunIsSafe(selected, budget, run);
  }

  /** Time actually spent in calls is not bounded by the budget: a crash between saving a
      result and recording it leaves its slot uncharged. */
  lemma SpentCanExceedBudget() returns (run: seq<World>)
    ensures Run(["a", "b"], 45, run) && run[0] == START
    ensures var end := run[|run| - 1]; end.slack == 0 && end.elapsed <= 45 && end.spent == 90 && end.lost == 45
  {
    var selected := ["a", "b"];
    var a0 := START.(slot := Some(Slot("a", 45)));
    assert Reserving(selected, 45, START, a0, Slot("a", 45), 0);
    var a1 := Called(a0);
    var a2 := ReturnedAfter(a1, 45);
    var a3 := ResultSaved(a2);
    var b := Reopened(a3);
    var b0 := b.(slot := Some(Slot("b", 45)), stage := Reserved, took := 0);
    assert Reserving(selected, 45, b, b0, Slot("b", 45), 0);
    var b1 := Called(b0);
    var b2 := ReturnedAfter(b1, 45);
    run := [START, a0, a1, a2, a3, b, b0, b1, b2];
  }

  // ----- when the time spent keeps within the budget -----

  /** No slot is larger than `timeout`. */
  ghost predicate SlotsAtMost(timeout: nat, run: seq<World>) {
    forall k | 0 <= k < |run| :: run[k].slot.Some? ==> run[k].slot.value.reserved <= timeout
  }

  /** Without slack, the calls that came back took at most `most` each. */
  ghost predicate SpentInSlots(selected: seq<string>, most: nat, w: World) {
    && (forall k | k in w.calls :: k in selected) && (w.slot.Some? ==> w.slot.value.key in selected)
    && (w.slot.Some? && w.stage == Calling ==> w.calls != [])
    && (w.slack == 0 ==> w.spent <= most * (if w.slot.Some? && w.stage == Calling then |w.calls| - 1 else |w.calls|))
  }

  lemma CalledSpent(selected: seq<string>, most: nat, w: World)
    requires SpentInSlots(selected, most, w) && w.slot.Some? && w.stage == Reserved
    ensures SpentInSlots(selected, most, Called(w))
  {
    assert |Called(w).calls| - 1 == |w.calls|;
  }

  lemma ReturnedSpent(selected: seq<string>, most: nat, w: World, d: nat)
    requires SpentInSlots(selected, most, w) && w.slot.Some? && w.stage == Calling && w.slot.value.reserved <= most
    ensures SpentInSlots(selected, most, ReturnedAfter(w, d))
  {
    Distribute(most, |w.calls| - 1);
  }

  /** An action that neither calls nor returns leaves calls and time spent as they are. */
  lemma QuietSpent(selected: seq<string>, most: nat, w: World, w': World)
    requires SpentInSlots(selected, most, w) && w'.calls == w.calls && w'.spent == w.spent && w'.slack >= w.slack
    requires w'.slot.Some? ==> w'.slot.value.key in selected
    requires w'.slot.Some? && w'.stage == Calling ==> w.slot.Some? && w.stage == Calling
    requires w.slot.Some? && w.stage == Calling ==> w'.slot == None || w'.stage == Calling
    ensures SpentInSlots(selected, most, w')
  {
    if w.slot.Some? && w.stage == Calling {
      Distribute(most, |w.calls| - 1);
    }
  }

  lemma StepSpent(selected: seq<string>, budget: nat, most: nat, w: World, w': World)
    requires SpentInSlots(selected, most, w) && Step(selected, budget, w, w')
    requires w.slot.Some? ==> w.slot.value.reserved <= most
    ensures SpentInSlots(selected, most, w')
  {
    if w.slot.Some? && w.stage == Reserved && w' == Called(w) {
      CalledSpent(selected, most, w);
    } else if w.slot.Some? && w.stage == Calling && exists d: nat :: w' == ReturnedAfter(w, d) {
      var d: nat :| w' == ReturnedAfter(w, d);
      ReturnedSpent(selected, most, w, d);
    } else {
      StepQuiet(selected, budget, most, w, w');
      QuietSpent(selected, most, w, w');
    }
  }

  lemma StepQuiet(selected: seq<string>, budget: nat, most: nat, w: World, w': World)
    requires SpentInSlots(selected, most, w) && Step(selected, budget, w, w')
    requires !(w.slot.Some? && w.stage == Reserved && w' == Called(w))
    requires !(w.slot.Some? && w.stage == Calling && exists d: nat :: w' == ReturnedAfter(w, d))
    ensures w'.calls == w.calls && w'.spent == w.spent && w'.slack >= w.slack
    ensures w'.slot.Some? ==> w'.slot.value.key in selected
    ensures w'.slot.Some? && w'.stage == Calling ==> w.slot.Some? && w.stage == Calling
    ensures w.slot.Some? && w.stage == Calling ==> w'.slot == None || w'.stage == Calling
  {
  }

  lemma Distribute(most: nat, n: int)
    ensures most * (n + 1) == most * n + most
  {
  }

  lemma {:induction false} RunSpent(selected: seq<string>, budget: nat, timeout: nat, run: seq<World>)
    requires Run(selected, budget, run) && run[0] == START && SlotsAtMost(timeout, run)
    ensures forall k | 0 <= k < |run| :: SpentInSlots(selected, if timeout < budget then timeout else budget, run[k])
  {
    hide Step, SpentInSlots, Reopened;
    if |run| == 1 {
      NothingSpent(selected, if timeout < budget then timeout else budget);
    } else {
      var n := |run| - 1;
      RunSpent(selected, budget, timeout, run[..n]);
      RunIsSafe(selected, budget, run);
      assert run[..n][n - 1] == run[n - 1];
      assert Accounted(budget, run[n - 1]);
      StepSpent(selected, budget, if timeout < budget then timeout else budget, run[n - 1], run[n]);
      forall k | 0 <= k < |run| ensures SpentInSlots(selected, if timeout < budget then timeout else budget, run[k]) {
        if k < n { assert run[..n][k] == run[k]; }
      }
    }
  }

  lemma NothingSpent(selected: seq<string>, most: nat)
    ensures SpentInSlots(selected, most, START)
  {
  }

  /** Keys called once and all selected are no more than the selected ones. */
  lemma {:induction false} NoMoreThan(calls: seq<string>, selected: seq<string>)
    requires Unique(calls) && forall k | k in calls :: k in selected
    ensures |calls| <= |selected|
  {
    if calls != [] {
      var last := |calls| - 1;
      assert calls[last] in calls;
      var i :| 0 <= i < |selected| && selected[i] == calls[last];
      var others := selected[..i] + selected[i + 1..];
      forall k | k in calls[..last] ensures k in others {
        var m :| 0 <= m < last && calls[m] == k;
        assert calls[m] in calls;
        var j :| 0 <= j < |selected| && selected[j] == k;
        assert j != i;
        assert k == if j < i then others[j] else others[j - 1];
      }
      NoMoreThan(calls[..last], others);
    }
  }

  /** The first `n` keys, each called for its whole slot with a crash between its result and
      the checkpoint: nothing of it is charged. */
  lemma {:induction false} CrashEach(selected: seq<string>, budget: nat, took: nat, n: nat) returns (run: seq<World>)
    requires Unique(selected) && took <= budget && n <= |selected|
    ensures Run(selected, budget, run) && run[0] == START && SlotsAtMost(took, run)
    ensures var w := run[|run| - 1];
            && w.slot == None && w.elapsed == 0 && w.slack == 0 && w.interrupted == []
            && w.spent == n * took && forall k | k in w.saved :: k in selected[..n]
  {
    if n == 0 {
      run := [START];
    } else {
      run := CrashEach(selected, budget, took, n - 1);
      assert selected[n - 1] !in selected[..n - 1];
      run := CrashOnce(selected, budget, took, selected[n - 1], run);
      Distribute(took, n - 1);
      assert selected[..n - 1] + [selected[n - 1]] == selected[..n];
    }
  }

  lemma CrashOnce(selected: seq<string>, budget: nat, took: nat, key: string,
                  before: seq<World>) returns (run: seq<World>)
    requires Run(selected, budget, before) && |before| > 0 && before[0] == START && SlotsAtMost(took, before)
             && took <= budget
    requires var w := before[|before| - 1];
             w.slot == None && w.elapsed == 0 && w.interrupted == [] && key in selected && key !in w.saved
    ensures Run(selected, budget, run) && |run| > 0 && run[0] == START && SlotsAtMost(took, run)
    ensures var w, r := before[|before| - 1], run[|run| - 1];
            && r.slot == None && r.elapsed == 0 && r.slack == w.slack && r.interrupted == []
            && r.spent == w.spent + took && r.saved == w.saved + {key}
  {
    hide Run, SlotsAtMost;
    var w := before[|before| - 1];
    var w0 := w.(slot := Some(Slot(key, took)), stage := Reserved, took := 0);
    assert Reserving(selected, budget, w, w0, Slot(key, took), 0);
    run := ExtendRun(selected, budget, took, before, w0);
    run := ExtendRun(selected, budget, took, run, Called(w0));
    run := ExtendRun(selected, budget, took, run, ReturnedAfter(Called(w0), took));
    run := ExtendRun(selected, budget, took, run, ResultSaved(ReturnedAfter(Called(w0), took)));
    run := ExtendRun(selected, budget, took, run, Reopened(ResultSaved(ReturnedAfter(Called(w0), took))));
  }

  lemma ExtendRun(selected: seq<string>, budget: nat, timeout: nat, before: seq<World>,
                  w: World) returns (run: seq<World>)
    requires Run(selected, budget, before) && |before| > 0 && Step(selected, budget, before[|before| - 1], w)
    requires SlotsAtMost(timeout, before) && (w.slot.Some? ==> w.slot.value.reserved <= timeout)
    ensures Run(selected, budget, run) && SlotsAtMost(timeout, run)
    ensures |run| > 0 && run[0] == before[0] && run[|run| - 1] == w
  {
    hide Step;
    run := before + [w];
  }

  ghost predicate SpentWithin(selected: seq<string>, budget: nat, timeout: nat, run: seq<World>) {
    (Run(selected, budget, run) && run[0] == START && SlotsAtMost(timeout, run)) ==>
      forall k | 0 <= k < |run| && run[k].slack == 0 :: run[k].spent <= budget
  }

  /** Exactly when: with slots of at most `timeout`, calls within their slots and a clock that
      moves only inside calls, the time spent keeps within the budget in every run iff a full
      slot for every selected key does. */
  lemma SpentWithinExactly(selected: seq<string>, budget: nat, timeout: nat)
    requires Unique(selected)
    ensures (forall run :: SpentWithin(selected, budget, timeout, run))
       <==> |selected| * (if timeout < budget then timeout else budget) <= budget
  {
    hide Run, SlotsAtMost;
    var most := if timeout < budget then timeout else budget;
    if |selected| * most <= budget {
      forall run: seq<World> ensures SpentWithin(selected, budget, timeout, run) {
        EverySlotFits(selected, budget, timeout, run);
      }
    } else {
      var run := CrashEach(selected, budget, most, |selected|);
      SmallerSlots(most, timeout, run);
      RunIsLong(selected, budget, run);
      assert !SpentWithin(selected, budget, timeout, run);
    }
  }

  lemma RunIsLong(selected: seq<string>, budget: nat, run: seq<World>)
    requires Run(selected, budget, run)
    ensures |run| > 0
  {
  }

  lemma SmallerSlots(most: nat, timeout: nat, run: seq<World>)
    requires SlotsAtMost(most, run) && most <= timeout
    ensures SlotsAtMost(timeout, run)
  {
  }

  lemma EverySlotFits(selected: seq<string>, budget: nat, timeout: nat, run: seq<World>)
    requires |selected| * (if timeout < budget then timeout else budget) <= budget
    ensures SpentWithin(selected, budget, timeout, run)
  {
    hide SlotsAtMost, Step, Accounted;
    var most := if timeout < budget then timeout else budget;
    if Run(selected, budget, run) && run[0] == START && SlotsAtMost(timeout, run) {
      RunIsSafe(selected, budget, run);
      RunSpent(selected, budget, timeout, run);
      forall k | 0 <= k < |run| && run[k].slack == 0 ensures run[k].spent <= budget {
        var w := run[k];
        assert CalledOnce(w) && SpentInSlots(selected, most, w);
        NoMoreThan(w.calls, selected);
        Monotone(most, if w.slot.Some? && w.stage == Calling then |w.calls| - 1 else |w.calls|, |selected|);
      }
    }
  }

  lemma Monotone(most: nat, n: int, m: int)
    requires n <= m
    ensures most * n <= m * most
  {
  }

  // ----- one session -----

  datatype End = BadLimits | Exhausted | BudgetExhausted | NoWorkerTime

  /** All that a session depends on.  `idle` and `duration` say how the clock moves between its
      readings outside and inside calls. */
  datatype Terms = Terms(selected: seq<string>, budget: nat, timeout: nat, reserve: nat, idle: nat -> nat,
                         duration: nat -> nat)

  /** A session under way: `pending` is clock time that no checkpoint records yet. */
  datatype Trip = Trip(w: World, tick: nat, pending: nat, end: End)

  function Held(w: World, key: string, timeout: nat, idle: nat): World {
    w.(elapsed := w.elapsed + idle, clocked := w.clocked + idle, slack := w.slack + idle,
       slot := Some(Slot(key, timeout)), stage := Reserved, took := 0)
  }

  /** One call in its slot, from the checkpoint before it to the one after it. */
  function Served(w: World, key: string, timeout: nat, idle: nat, duration: nat, after: nat): World {
    Recorded(ResultSaved(ReturnedAfter(Called(Held(w, key, timeout, idle)), duration)), after)
  }

  /** The turn of the `i`-th selected key. */
  function Turn(x: Terms, t: Trip, i: nat): Trip
    requires i < |x.selected|
  {
    var key, pause := x.selected[i], x.idle(t.tick);
    if t.end != Exhausted || key in t.w.saved || key in t.w.interrupted then t
    else if x.budget < t.w.elapsed + pause + x.timeout then Trip(t.w, t.tick + 1, pause, BudgetExhausted)
    else if x.timeout <= x.reserve then t.(end := NoWorkerTime)
    else Trip(Served(t.w, key, x.timeout, pause, x.duration(t.tick), x.idle(t.tick + 1)), t.tick + 2, 0, Exhausted)
  }

  function Turns(x: Terms, t: Trip, n: nat): Trip
    requires n <= |x.selected|
  {
    if n == 0 then t else Turn(x, Turns(x, t, n - 1), n - 1)
  }

  function Opening(w: World): Trip {
    Trip(Reopened(w), 0, 0, Exhausted)
  }

  /** What a session leaves: an error leaves the last checkpoint, any other end records the
      clock once more. */
  function Closed(x: Terms, t: Trip): World {
    if t.end == NoWorkerTime then t.w else Recorded(t.w, t.pending + x.idle(t.tick))
  }

  /** A session without idle time whose calls stay within their slots adds no slack: it records
      exactly the time its calls took, stops for its budget only when that leaves no whole
      slot, and otherwise has dealt with every key whose turn came. */
  lemma {:induction false} QuietSession(x: Terms, t: Trip, n: nat)
    requires n <= |x.selected| && t.pending == 0 && t.end == Exhausted && t.w.slot == None
    requires forall k :: x.idle(k) == 0 && x.duration(k) <= x.timeout
    ensures var r := Turns(x, t, n);
            && r.w.slack == t.w.slack && r.pending == 0 && r.w.slot == None
            && r.w.elapsed - t.w.elapsed == r.w.spent - t.w.spent >= 0
            && (r.end == BudgetExhausted ==> t.w.elapsed + (r.w.spent - t.w.spent) + x.timeout > x.budget)
            && (r.end == NoWorkerTime ==> x.timeout <= x.reserve)
            && (r.end == Exhausted ==> forall i | 0 <= i < n ::
                  x.selected[i] in r.w.saved || x.selected[i] in r.w.interrupted)
  {
    if n > 0 { QuietSession(x, t, n - 1); }
  }

  // ----- a session in the readings of the clock -----

  /** What the first `n` calls of a session take: the clock is read once before and once after each. */
  function CallTime(duration: nat -> nat, n: nat): nat {
    if n == 0 then 0 else CallTime(duration, n - 1) + duration(2 * (n - 1))
  }

  /** What the clock moves outside the calls, over its first `n` readings there. */
  function Pauses(idle: nat -> nat, n: nat): nat {
    if n == 0 then 0 else Pauses(idle, n - 1) + idle(n - 1)
  }

  /** What a session charges when it opens: all of a reserved slot that has no result. */
  function Charge(w: World): nat {
    if w.slot.Some? && w.slot.value.key !in w.saved then w.slot.value.reserved else 0
  }

  /** The keys with neither a result nor a charge, in order. */
  function Undone(keys: seq<string>, saved: set<string>, interrupted: seq<string>): (r: seq<string>)
    ensures forall k :: k in r <==> k in keys && k !in saved && k !in interrupted
  {
    if keys == [] then []
    else
      var last := keys[|keys| - 1];
      Undone(keys[..|keys| - 1], saved, interrupted) +
      if last in saved || last in interrupted then [] else [last]
  }

  /** A session that opened with `w0` has made `n` calls, each with a whole slot left before
      it, for the keys among the first `m` not yet dealt with. */
  ghost predicate Metered(x: Terms, w0: World, t: Trip, n: nat, m: nat)
    requires m <= |x.selected|
  {
    && t.w.spent == w0.spent + CallTime(x.duration, n)
    && t.w.elapsed == w0.elapsed + CallTime(x.duration, n) + Pauses(x.idle, 2 * n)
    && t.w.calls == w0.calls + Undone(x.selected[..m], w0.saved, w0.interrupted)
    && |t.w.calls| == |w0.calls| + n
    && (forall k | 0 <= k < n ::
          w0.elapsed + CallTime(x.duration, k) + Pauses(x.idle, 2 * k + 1) + x.timeout <= x.budget)
    && t.tick == 2 * n + (if t.end == BudgetExhausted then 1 else 0)
    && t.pending == if t.end == BudgetExhausted then x.idle(2 * n) else 0
  }

  lemma UndoneNext(keys: seq<string>, saved: set<string>, interrupted: seq<string>, i: nat)
    requires i < |keys|
    ensures Undone(keys[..i + 1], saved, interrupted) ==
            Undone(keys[..i], saved, interrupted) +
            if keys[i] in saved || keys[i] in interrupted then [] else [keys[i]]
  {
    assert keys[..i + 1][..i] == keys[..i];
  }

  lemma ServedFields(w: World, key: string, timeout: nat, idle: nat, duration: nat, after: nat)
    ensures var r := Served(w, key, timeout, idle, duration, after);
            && r.elapsed == w.elapsed + idle + duration + after && r.spent == w.spent + duration
            && r.calls == w.calls + [key] && r.saved == w.saved + {key} && r.interrupted == w.interrupted
  {
  }

  /** What the keys before the `i`-th have left: nothing but calls for those not yet dealt with. */
  ghost predicate Dealt(x: Terms, w0: World, w: World, i: nat)
    requires i <= |x.selected|
  {
    && w.interrupted == w0.interrupted
    && forall k :: k in w.saved <==> k in w0.saved || k in Undone(x.selected[..i], w0.saved, w0.interrupted)
  }

  lemma TurnMetered(x: Terms, w0: World, t: Trip, i: nat, n: nat) returns (n': nat)
    requires i < |x.selected| && Unique(x.selected) && t.end == Exhausted
    requires Metered(x, w0, t, n, i) && Dealt(x, w0, t.w, i)
    ensures var r := Turn(x, t, i);
            if r.end == Exhausted then Metered(x, w0, r, n', i + 1) && Dealt(x, w0, r.w, i + 1)
            else Metered(x, w0, r, n, i) && r.w == t.w && r.end != BadLimits
  {
    hide Served, CallTime, Pauses, Undone;
    var key := x.selected[i];
    MeteredNext(x, n);
    UndoneNext(x.selected, w0.saved, w0.interrupted, i);
    assert key !in x.selected[..i];
    ServedFields(t.w, key, x.timeout, x.idle(2 * n), x.duration(2 * n), x.idle(2 * n + 1));
    n' := if Turn(x, t, i).tick == t.tick then n else n + 1;
  }

  /** The turns of the first `i` keys. */
  lemma {:induction false} TurnsMetered(x: Terms, w: World, i: nat) returns (n: nat, m: nat)
    requires i <= |x.selected| && Unique(x.selected)
    ensures m <= i && Metered(x, Reopened(w), Turns(x, Opening(w), i), n, m)
    ensures var t := Turns(x, Opening(w), i);
            && t.end != BadLimits && t.w.interrupted == Reopened(w).interrupted
            && (t.end == Exhausted ==> m == i && Dealt(x, Reopened(w), t.w, i))
  {
    hide CallTime, Pauses, Undone, Turn, Reopened, Metered;
    if i == 0 {
      n, m := 0, 0;
      NothingMetered(x, w);
    } else {
      n, m := TurnsMetered(x, w, i - 1);
      var t := Turns(x, Opening(w), i - 1);
      if t.end == Exhausted {
        var n' := TurnMetered(x, Reopened(w), t, i - 1, n);
        if Turn(x, t, i - 1).end == Exhausted {
          n, m := n', i;
        }
      } else {
        TurnsStay(x, Opening(w), i - 1, i);
      }
    }
  }

  lemma NothingMetered(x: Terms, w: World)
    ensures Metered(x, Reopened(w), Opening(w), 0, 0) && Dealt(x, Reopened(w), Reopened(w), 0)
  {
    assert x.selected[..0] == [];
  }

  lemma MeteredNext(x: Terms, n: nat)
    ensures CallTime(x.duration, n + 1) == CallTime(x.duration, n) + x.duration(2 * n)
    ensures Pauses(x.idle, 2 * n + 1) == Pauses(x.idle, 2 * n) + x.idle(2 * n)
    ensures Pauses(x.idle, 2 * n + 2) == Pauses(x.idle, 2 * n) + x.idle(2 * n) + x.idle(2 * n + 1)
  {
  }

  lemma ReopenedFields(w: World)
    ensures var r := Reopened(w);
            && r.elapsed == w.elapsed + Charge(w) && r.spent == w.spent && r.calls == w.calls && r.saved == w.saved
            && r.interrupted ==
                 w.interrupted + if w.slot.Some? && w.slot.value.key !in w.saved then [w.slot.value.key] else []
  {
  }

  lemma ClosedFields(x: Terms, t: Trip)
    requires t.w.slot == None
    ensures var r := Closed(x, t);
            && r.elapsed == t.w.elapsed + (if t.end == NoWorkerTime then 0 else t.pending + x.idle(t.tick))
            && r.spent == t.w.spent && r.calls == t.w.calls && r.interrupted == t.w.interrupted
  {
  }

  lemma {:induction false} NoSlotLeft(x: Terms, w: World, n: nat)
    requires n <= |x.selected|
    ensures Turns(x, Opening(w), n).w.slot == None
  {
    if n > 0 { NoSlotLeft(x, w, n - 1); }
  }

  /** What a session leaves of `w`, in the readings of the clock.  It charges an interrupted
      slot in full; its calls are for the keys not yet dealt with, in order, each with a whole
      slot left before it; and it records that charge and all that the clock moved. */
  ghost predicate Measured(x: Terms, w: World, end: End, last: World) {
    var n := |last.calls| - |w.calls|;
    var readings := 2 * n + match end case Exhausted => 1 case BudgetExhausted => 2 case _ => 0;
    var charge := if w.slot.Some? && w.slot.value.key !in w.saved then w.slot.value.reserved else 0;
    && n >= 0 && last.calls[..|w.calls|] == w.calls
    && (exists m: nat | m <= |x.selected| ::
          last.calls[|w.calls|..] == Undone(x.selected[..m], w.saved, last.interrupted))
    && (forall k | 0 <= k < n ::
          w.elapsed + charge + CallTime(x.duration, k) + Pauses(x.idle, 2 * k + 1) + x.timeout <= x.budget)
    && last.spent == w.spent + CallTime(x.duration, n)
    && last.elapsed == w.elapsed + charge + CallTime(x.duration, n) + Pauses(x.idle, readings)
    && last.interrupted ==
         w.interrupted + if w.slot.Some? && w.slot.value.key !in w.saved then [w.slot.value.key] else []
  }

  lemma SessionMeasured(x: Terms, w: World)
    requires Unique(x.selected)
    ensures var t := Turns(x, Opening(w), |x.selected|); Measured(x, w, t.end, Closed(x, t))
  {
    hide CallTime, Pauses, Undone, Turns, Reopened, Opening, Closed;
    var t := Turns(x, Opening(w), |x.selected|);
    var n, m := TurnsMetered(x, w, |x.selected|);
    NoSlotLeft(x, w, |x.selected|);
    MeteredNext(x, n);
    ReopenedFields(w);
    ClosedFields(x, t);
    assert Closed(x, t).calls[|w.calls|..] == Undone(x.selected[..m], w.saved, Closed(x, t).interrupted);
  }

  /** With calls of one length and no idle time, the calls take that length each. */
  lemma {:induction false} SteadyCalls(duration: nat -> nat, idle: nat -> nat, d: nat, n: nat)
    requires forall k: nat :: duration(k) == d && idle(k) == 0
    ensures CallTime(duration, n) == d * n && Pauses(idle, n) == 0
  {
    if n > 0 { SteadyCalls(duration, idle, d, n - 1); }
  }

  /** A session of such calls records what was charged and that length for each new call. */
  lemma SteadySession(x: Terms, w: World, d: nat)
    requires Unique(x.selected) && forall k: nat :: x.duration(k) == d && x.idle(k) == 0
    ensures var last := Closed(x, Turns(x, Opening(w), |x.selected|));
            last.elapsed == w.elapsed + Charge(w) + d * (|last.calls| - |w.calls|)
  {
    hide CallTime, Pauses, Undone, Turns, Opening, Closed;
    SessionMeasured(x, w);
    var t := Turns(x, Opening(w), |x.selected|);
    var n := |Closed(x, t).calls| - |w.calls|;
    SteadyCalls(x.duration, x.idle, d, n);
    SteadyCalls(x.duration, x.idle, d, 2 * n + match t.end case Exhausted => 1 case BudgetExhausted => 2 case _ => 0);
  }

  /** The evaluator's disk and its history.  `budget` is the batch budget of all sessions. */
  class Evaluator {
    const selected: seq<string>
    const budget: nat
    var w: World
    var run: seq<World>

    ghost predicate Valid()
      reads this
    {
      Unique(selected) && Run(selected, budget, run) && run[0] == START && run[|run| - 1] == w
    }

    constructor (selected: seq<string>, budget: nat)
      requires Unique(selected)
      ensures Valid() && this.selected == selected && this.budget == budget && run == [START]
    {
      this.selected, this.budget, w, run := selected, budget, START, [START];
    }

    method Do(w': World)
      requires Valid() && Step(selected, budget, w, w')
      modifies this
      ensures Valid() && w == w' && run == old(run) + [w']
    {
      w, run := w', run + [w'];
    }

    /** Power is lost at the `k`-th action; the next session starts from what was on disk. */
    method Crash(k: nat)
      requires Valid() && k < |run|
      modifies this
      ensures Valid() && run == old(run)[..k + 1] && w == old(run)[k]
    {
      w, run := run[k], run[..k + 1];
    }

    /** One call in its slot: checkpoint first, then the call, the result file, the clock. */
    method Slotted(key: string, timeout: nat, idle: nat, duration: nat, after: nat)
      requires Valid() && Reserving(selected, budget, w, Held(w, key, timeout, idle), Slot(key, timeout), idle)
      modifies this
      ensures Valid() && old(run) <= run
      ensures w == Served(old(w), key, timeout, idle, duration, after)
      ensures w.spent == old(w.spent) + duration
      ensures w.slot == None && w.saved == old(w.saved) + {key} && w.interrupted == old(w.interrupted)
      ensures w.calls == old(w.calls) + [key] && w.elapsed == old(w.elapsed) + idle + duration + after
    {
      Do(Held(w, key, timeout, idle));
      Do(Called(w));
      Do(ReturnedAfter(w, duration));
      Do(ResultSaved(w));
      Do(Recorded(w, after));
    }

    /** The turn of a key that is neither done nor interrupted. */
    method OneTurn(x: Terms, i: nat, previous: nat, clock: nat, tick: nat) returns (end: End, clock': nat, tick': nat,
        ghost pending: nat)
      requires Valid() && x.selected == selected && x.budget == budget && i < |selected|
      requires w.slot == None && w.elapsed == previous + clock && selected[i] !in w.saved
               && selected[i] !in w.interrupted
      modifies this
      ensures Valid() && old(run) <= run && w.slot == None && w.interrupted == old(w.interrupted)
      ensures Trip(w, tick', pending, end) == Turn(x, Trip(old(w), tick, 0, Exhausted), i)
      ensures w.elapsed + pending == previous + clock' && end in {Exhausted, BudgetExhausted, NoWorkerTime}
      ensures if end == Exhausted then
                && pending == 0 && w.saved == old(w.saved) + {selected[i]} && w.calls == old(w.calls) + [selected[i]]
                && tick' == tick + 2 && old(w.elapsed) + x.idle(tick) + x.timeout <= budget
                && w.spent == old(w.spent) + x.duration(tick)
                && w.elapsed == old(w.elapsed) + x.idle(tick) + x.duration(tick) + x.idle(tick + 1)
              else
                && w == old(w)
                && (end == BudgetExhausted ==> tick' == tick + 1 && pending == x.idle(tick))
                && (end == NoWorkerTime ==> tick' == tick && pending == 0)
      ensures end == BudgetExhausted ==> w.elapsed + pending + x.timeout > budget
      ensures end == NoWorkerTime ==> x.timeout <= x.reserve
      ensures x.timeout <= x.reserve ==> w.calls == old(w.calls)
    {
      hide Run, Step, Served, Held, Reserving;
      var pause := x.idle(tick);
      end, clock', tick', pending := Exhausted, clock, tick, 0;
      if budget < previous + clock + pause + x.timeout {
        end, clock', tick', pending := BudgetExhausted, clock + pause, tick + 1, pause;
      } else if x.timeout <= x.reserve {
        end := NoWorkerTime;
      } else {
        MayReserve(selected, budget, w, selected[i], x.timeout, pause);
        var d, after := x.duration(tick), x.idle(tick + 1);
        Slotted(selected[i], x.timeout, pause, d, after);
        clock', tick' := clock + pause + d + after, tick + 2;
      }
    }

    /** A session: reopen, then every selected key that is neither done nor interrupted, as
        long as a whole slot is left. */
    method Session(timeout: nat, reserve: nat, idle: nat -> nat, duration: nat -> nat) returns (end: End)
      requires Valid()
      modifies this
      ensures Valid() && old(run) <= run
      ensures end == BadLimits <==> !(0 < timeout <= 45 && 0 < budget <= 480)
      ensures end == BadLimits ==> run == old(run)
      ensures end != BadLimits ==>
                var x := Terms(selected, budget, timeout, reserve, idle, duration);
                var t := Turns(x, Opening(old(w)), |selected|);
                end == t.end && w == Closed(x, t)
      ensures end != BadLimits ==> w.interrupted == Reopened(old(w)).interrupted && w.slot == None
      // without a stop, every selected key has been dealt with
      ensures end == Exhausted ==> forall i | 0 <= i < |selected| ::
                selected[i] in w.saved || selected[i] in w.interrupted
      ensures end == BudgetExhausted ==> w.elapsed + timeout > budget
      // a slot without time for its worker is never used
      ensures end == NoWorkerTime ==> timeout <= reserve
      ensures timeout <= reserve ==> w.calls == old(w.calls)
      ensures end != BadLimits ==>
                Measured(Terms(selected, budget, timeout, reserve, idle, duration), old(w), end, w)
    {
      hide Run, Step, Served, Reopened, Recorded, Turn, Turns, Measured;
      if !(0 < timeout <= 45 && 0 < budget <= 480) { return BadLimits; }
      var x := Terms(selected, budget, timeout, reserve, idle, duration);
      ghost var start := Opening(w);
      var done := w.saved;
      Reopen();
      var previous: nat, clock: nat, tick: nat := w.elapsed, 0, 0;
      ghost var pending: nat := 0;
      end := Exhausted;
      var i := 0;
      NoTurns(x, start);
      while i < |selected| && end == Exhausted
        invariant Valid() && old(run) <= run && i <= |selected|
        invariant w.slot == None && w.interrupted == Reopened(old(w)).interrupted
        invariant w.elapsed + pending == previous + clock
        invariant Turns(x, start, i) == Trip(w, tick, pending, end)
        invariant end == Exhausted ==> pending == 0
        invariant done <= w.saved && forall j | i <= j < |selected| :: selected[j] in w.saved ==> selected[j] in done
        invariant end == Exhausted ==> forall j | 0 <= j < i :: selected[j] in w.saved || selected[j] in w.interrupted
        invariant end in {Exhausted, BudgetExhausted, NoWorkerTime}
        invariant end == BudgetExhausted ==> w.elapsed + pending + timeout > budget
        invariant timeout <= reserve ==> w.calls == old(w.calls)
        invariant end == NoWorkerTime ==> timeout <= reserve
      {
        TurnNext(x, start, i);
        if selected[i] !in done && selected[i] !in w.interrupted {
          end, clock, tick, pending := OneTurn(x, i, previous, clock, tick);
        }
        i := i + 1;
      }
      TurnsStay(x, start, i, |selected|);
      SessionMeasured(x, old(w));
      if end != NoWorkerTime {
        Record(clock + idle(tick) - (w.elapsed - previous));
      }
    }

    method Reopen()
      requires Valid()
      modifies this
      ensures Valid() && old(run) <= run && w == Reopened(old(w)) && w.slot == None && w.calls == old(w.calls)
              && old(w.saved) == w.saved
    {
      Do(Reopened(w));
    }

    method Record(idle: nat)
      requires Valid() && w.slot == None
      modifies this
      ensures Valid() && old(run) <= run && w == Recorded(old(w), idle)
      ensures w.elapsed == old(w.elapsed) + idle && w.slot == None
      ensures w.calls == old(w.calls) && w.saved == old(w.saved) && w.interrupted == old(w.interrupted)
    {
      Do(Recorded(w, idle));
    }
  }

  lemma MayReserve(selected: seq<string>, budget: nat, w: World, key: string, timeout: nat, idle: nat)
    requires w.slot == None && key in selected && key !in w.saved && key !in w.interrupted
             && w.elapsed + idle + timeout <= budget
    ensures Reserving(selected, budget, w, Held(w, key, timeout, idle), Slot(key, timeout), idle)
  {
  }

  lemma NoTurns(x: Terms, t: Trip)
    ensures Turns(x, t, 0) == t
  {
  }

  lemma TurnNext(x: Terms, t: Trip, i: nat)
    requires i < |x.selected|
    ensures Turns(x, t, i + 1) == Turn(x, Turns(x, t, i), i)
    ensures var w := Turns(x, t, i).w;
            x.selected[i] in w.saved || x.selected[i] in w.interrupted ==> Turns(x, t, i + 1) == Turns(x, t, i)
  {
  }

  /** After an end no turn changes anything. */
  lemma {:induction false} TurnsStay(x: Terms, t: Trip, i: nat, n: nat)
    requires i <= n <= |x.selected| && (i < n ==> Turns(x, t, i).end != Exhausted)
    ensures Turns(x, t, n) == Turns(x, t, i)
  {
    if i < n { TurnsStay(x, t, i, n - 1); }
  }
}
