/** The checkpointed regression probe: every attempt is counted in the checkpoint before its
    call, a lead left in flight by a dead session may be tried once more, and three recorded
    environment failures in a row stop all further calls for good. */
module RoundProbe {
  import opened Wrappers

  datatype Stage = Counted | Calling | Returned

  /** A call of the runner, with the number of outcomes recorded by then. */
  datatype Call = Call(key: string, at: nat)

  /** The checkpoint (`completed`, `inFlight`, `attempts`, `consecutive`, `breaker`,
      `interrupted`) with the history of calls and recorded outcomes; an outcome is whether
      it was an environment failure. */
  datatype World = World(
    completed: set<string>, inFlight: Option<string>, attempts: map<string, nat>, interrupted: seq<string>,
    consecutive: nat, breaker: bool, stage: Stage, calls: seq<Call>, outcomes: seq<bool>)

  const START := World({}, None, map[], [], 0, false, Counted, [], [])

  function AttemptsOf(w: World, key: string): nat {
    if key in w.attempts then w.attempts[key] else 0
  }

  function CallsOf(calls: seq<Call>, key: string): nat {
    if calls == [] then 0
    else CallsOf(calls[..|calls| - 1], key) + if calls[|calls| - 1].key == key then 1 else 0
  }

  /** Length of the run of environment failures that `outcomes` ends with. */
  function Streak(outcomes: seq<bool>): nat {
    if outcomes == [] || !outcomes[|outcomes| - 1] then 0 else 1 + Streak(outcomes[..|outcomes| - 1])
  }

  ghost predicate ThreeInARow(outcomes: seq<bool>) {
    exists i :: 0 <= i < |outcomes| - 2 && outcomes[i] && outcomes[i + 1] && outcomes[i + 2]
  }

  // ----- one action at a time -----

  /** A session opens the checkpoint; whatever was in flight and not completed is interrupted. */
  function Reopened(w: World): World {
    if w.inFlight.Some? && w.inFlight.value !in w.completed then
      var key := w.inFlight.value;
      var n := AttemptsOf(w, key);
      w.(interrupted := w.interrupted + [key], attempts := w.attempts[key := if n < 1 then 1 else n], inFlight := None)
    else w.(inFlight := None)
  }

  predicate MayAttempt(w: World, key: string) {
    w.inFlight == None && key !in w.completed && !w.breaker && AttemptsOf(w, key) < 2
  }

  function Attempted(w: World, key: string): World {
    w.(attempts := w.attempts[key := AttemptsOf(w, key) + 1], inFlight := Some(key), stage := Counted)
  }

  function Called(w: World): World
    requires w.inFlight.Some?
  {
    w.(stage := Calling, calls := w.calls + [Call(w.inFlight.value, |w.outcomes|)])
  }

  /** The outcome is recorded; the third failure in a row trips the breaker. */
  function Recorded(w: World, failure: bool): World
    requires w.inFlight.Some?
  {
    var n := if failure then w.consecutive + 1 else 0;
    w.(completed := w.completed + {w.inFlight.value}, outcomes := w.outcomes + [failure], consecutive := n,
       breaker := w.breaker || n >= 3, inFlight := None)
  }

  ghost predicate Step(w: World, w': World) {
    || w' == Reopened(w)
    || (exists key :: MayAttempt(w, key) && w' == Attempted(w, key))
    || (w.inFlight.Some? && w.stage == Counted && w' == Called(w))
    || (w.inFlight.Some? && w.stage == Calling && w' == w.(stage := Returned))
    || (w.inFlight.Some? && w.stage == Returned && exists failure :: w' == Recorded(w, failure))
  }

  ghost predicate Run(run: seq<World>) {
    run != [] && forall k | 0 <= k < |run| - 1 :: Step(run[k], run[k + 1])
  }

  /** At most two attempts of a lead, the second only if it was interrupted; no more calls than
      attempts. */
  predicate LimitedAt(w: World, key: string) {
    var n := AttemptsOf(w, key);
    && n <= 2
    && CallsOf(w.calls, key) + (if w.inFlight == Some(key) && w.stage == Counted then 1 else 0) <= n
    && (n == 2 ==> key in w.interrupted)
    && (n == 1 ==> key in w.completed || key in w.interrupted || w.inFlight == Some(key))
    && (w.inFlight == Some(key) ==> n >= 1 && key !in w.completed)
  }

  ghost predicate Limited(w: World) {
    forall key :: LimitedAt(w, key)
  }

  /** The breaker is set exactly when three recorded outcomes in a row were failures, and no
      call was made after that. */
  ghost predicate Guarded(w: World) {
    && w.consecutive == Streak(w.outcomes)
    && (w.breaker <==> ThreeInARow(w.outcomes))
    && (w.inFlight.Some? ==> !w.breaker)
    && forall i | 0 <= i < |w.calls| :: w.calls[i].at <= |w.outcomes| && !ThreeInARow(w.outcomes[..w.calls[i].at])
  }

  lemma ReopenedLimited(w: World)
    requires Limited(w)
    ensures Limited(Reopened(w))
  {
    hide CallsOf;
    forall key ensures LimitedAt(Reopened(w), key) {
      assert LimitedAt(w, key);
    }
  }

  lemma AttemptedLimited(w: World, lead: string)
    requires Limited(w) && MayAttempt(w, lead)
    ensures Limited(Attempted(w, lead))
  {
    hide CallsOf;
    forall key ensures LimitedAt(Attempted(w, lead), key) {
      assert LimitedAt(w, key);
    }
  }

  lemma CallsNext(calls: seq<Call>, c: Call, key: string)
    ensures CallsOf(calls + [c], key) == CallsOf(calls, key) + if c.key == key then 1 else 0
  {
    assert (calls + [c])[..|calls|] == calls;
  }

  lemma CalledLimited(w: World)
    requires Limited(w) && w.inFlight.Some? && w.stage == Counted
    ensures Limited(Called(w))
  {
    hide CallsOf;
    forall key ensures LimitedAt(Called(w), key) {
      assert LimitedAt(w, key);
      CallsNext(w.calls, Call(w.inFlight.value, |w.outcomes|), key);
    }
  }

  lemma ReturnedLimited(w: World)
    requires Limited(w)
    ensures Limited(w.(stage := Returned))
  {
    hide CallsOf;
    forall key ensures LimitedAt(w.(stage := Returned), key) {
      assert LimitedAt(w, key);
    }
  }

  lemma RecordedLimited(w: World, failure: bool)
    requires Limited(w) && w.inFlight.Some?
    ensures Limited(Recorded(w, failure))
  {
    hide CallsOf;
    forall key ensures LimitedAt(Recorded(w, failure), key) {
      assert LimitedAt(w, key);
    }
  }

  lemma StepLimited(w: World, w': World)
    requires Limited(w) && Step(w, w')
    ensures Limited(w')
  {
    hide Limited, Reopened, MayAttempt, Attempted, Called, Recorded;
    if w' == Reopened(w) {
      ReopenedLimited(w);
    } else if exists key :: MayAttempt(w, key) && w' == Attempted(w, key) {
      var key :| MayAttempt(w, key) && w' == Attempted(w, key);
      AttemptedLimited(w, key);
    } else if w.inFlight.Some? && w.stage == Counted && w' == Called(w) {
      CalledLimited(w);
    } else if w' == w.(stage := Returned) {
      ReturnedLimited(w);
    } else {
      var failure :| w' == Recorded(w, failure);
      RecordedLimited(w, failure);
    }
  }

  /** The streak counts back from the end. */
  lemma {:induction false} StreakBack(outcomes: seq<bool>, i: nat)
    requires i < |outcomes|
    ensures Streak(outcomes) >= i + 1 <==> forall j | |outcomes| - 1 - i <= j < |outcomes| :: outcomes[j]
  {
    var n := |outcomes| - 1;
    if i > 0 && outcomes[n] {
      StreakBack(outcomes[..n], i - 1);
      assert forall j | n - i <= j < n :: outcomes[..n][j] == outcomes[j];
    }
  }

  lemma ThreeAfter(outcomes: seq<bool>, failure: bool)
    ensures var later := outcomes + [failure];
            && Streak(later) == (if failure then Streak(outcomes) + 1 else 0)
            && (ThreeInARow(later) <==> ThreeInARow(outcomes) || Streak(later) >= 3)
  {
    var later := outcomes + [failure];
    var n := |outcomes|;
    assert later[..n] == outcomes;
    if n >= 2 { StreakBack(later, 2); }
    if ThreeInARow(outcomes) {
      var i :| 0 <= i < n - 2 && outcomes[i] && outcomes[i + 1] && outcomes[i + 2];
      assert later[i] && later[i + 1] && later[i + 2];
    }
    if n >= 2 && Streak(later) >= 3 {
      assert later[n - 2] && later[n - 2 + 1] && later[n - 2 + 2];
    }
    if n < 2 { StreakShort(later); }
  }

  lemma {:induction false} StreakShort(outcomes: seq<bool>)
    ensures Streak(outcomes) <= |outcomes|
  {
    if outcomes != [] { StreakShort(outcomes[..|outcomes| - 1]); }
  }

  /** A call made earlier was not preceded by three failures, in the longer history either. */
  lemma StillGuarded(outcomes: seq<bool>, later: seq<bool>, at: nat)
    requires outcomes <= later && at <= |outcomes| && !ThreeInARow(outcomes[..at])
    ensures at <= |later| && !ThreeInARow(later[..at])
  {
    assert later[..at] == outcomes[..at];
  }

  lemma RecordedGuarded(w: World, failure: bool)
    requires Guarded(w) && w.inFlight.Some?
    ensures Guarded(Recorded(w, failure))
  {
    hide ThreeInARow, Streak;
    var w' := Recorded(w, failure);
    ThreeAfter(w.outcomes, failure);
    forall i | 0 <= i < |w'.calls| ensures w'.calls[i].at <= |w'.outcomes|
      && !ThreeInARow(w'.outcomes[..w'.calls[i].at]) {
      StillGuarded(w.outcomes, w'.outcomes, w.calls[i].at);
    }
  }

  lemma CalledGuarded(w: World)
    requires Guarded(w) && w.inFlight.Some?
    ensures Guarded(Called(w))
  {
    hide ThreeInARow, Streak;
    assert w.outcomes[..|w.outcomes|] == w.outcomes;
  }

  lemma StepGuarded(w: World, w': World)
    requires Guarded(w) && Step(w, w')
    ensures Guarded(w')
  {
    hide ThreeInARow, Streak, Called, Recorded, Guarded;
    if exists failure :: w.inFlight.Some? && w' == Recorded(w, failure) {
      var failure :| w.inFlight.Some? && w' == Recorded(w, failure);
      RecordedGuarded(w, failure);
    } else if w.inFlight.Some? && w' == Called(w) {
      CalledGuarded(w);
    } else {
      QuietGuarded(w, w');
    }
  }

  lemma QuietGuarded(w: World, w': World)
    requires Guarded(w) && w'.outcomes == w.outcomes && w'.calls == w.calls
    requires w'.consecutive == w.consecutive && w'.breaker == w.breaker && (w'.inFlight.Some? ==>
          w.inFlight.Some? || !w.breaker)
    ensures Guarded(w')
  {
  }

  lemma StartIsSafe()
    ensures Limited(START) && Guarded(START)
  {
  }

  /** Over all sessions and crashes: each lead is called at most twice, and twice only after an
      interrupted first attempt; once three recorded outcomes in a row are environment
      failures, no lead is ever called again. */
  lemma {:induction false} RunIsSafe(run: seq<World>)
    requires Run(run) && run[0] == START
    ensures forall k | 0 <= k < |run| :: Limited(run[k]) && Guarded(run[k])
  {
    hide Limited, Guarded, Step;
    if |run| == 1 {
      StartIsSafe();
    } else {
      var n := |run| - 1;
      RunIsSafe(run[..n]);
      assert run[..n][n - 1] == run[n - 1];
      StepLimited(run[n - 1], run[n]);
      StepGuarded(run[n - 1], run[n]);
      forall k | 0 <= k < |run| ensures Limited(run[k]) && Guarded(run[k]) {
        if k < n { assert run[..n][k] == run[k]; }
      }
    }
  }

  // ----- one session -----

  /** All that a session depends on: `late` says whether the session budget is used up when a
      lead's turn comes, `failure` what its outcome is. */
  datatype Terms = Terms(selected: seq<string>, late: nat -> bool, failure: nat -> bool)

  /** A session under way, or over because of the breaker or the budget. */
  datatype Trip = Trip(w: World, skipped: seq<string>, stopped: bool, over: bool)

  /** One attempt: counted first, then the call, the result file, the outcome. */
  function Served(w: World, key: string, failure: bool): World {
    Recorded(Called(Attempted(w, key)).(stage := Returned), failure)
  }

  function Turn(x: Terms, t: Trip, i: nat): Trip
    requires i < |x.selected|
  {
    var key := x.selected[i];
    if t.over || key in t.w.completed then t
    else if t.w.breaker then t.(over := true)
    else if x.late(i) then t.(stopped := true, over := true)
    else if AttemptsOf(t.w, key) >= 2 then t.(skipped := t.skipped + [key])
    else t.(w := Served(t.w, key, x.failure(i)))
  }

  function Turns(x: Terms, t: Trip, n: nat): Trip
    requires n <= |x.selected|
  {
    if n == 0 then t else Turn(x, Turns(x, t, n - 1), n - 1)
  }

  function Opening(w: World): Trip {
    Trip(Reopened(w), [], false, false)
  }

  predicate DealtWith(t: Trip, key: string) {
    key in t.w.completed || key in t.skipped
  }

  /** A session deals with every lead in turn until the breaker is set or a lead's turn comes
      too late; it skips only leads with both attempts used and calls nothing once the breaker
      is set. */
  lemma {:induction false} TurnsInOrder(x: Terms, t: Trip, n: nat)
    requires n <= |x.selected| && t.skipped == [] && !t.stopped && !t.over
    ensures var r := Turns(x, t, n);
            && (!r.over ==> forall i | 0 <= i < n :: DealtWith(r, x.selected[i]))
            && (r.over ==> r.stopped || r.w.breaker)
            && (r.stopped ==> exists i :: 0 <= i < n && x.late(i) && forall j | 0 <= j < i ::
                  DealtWith(r, x.selected[j]))
            && (forall key | key in r.skipped ::
                  key in x.selected && AttemptsOf(r.w, key) >= 2 && key !in r.w.completed)
            && (t.w.breaker ==> r.w == t.w)
  {
    hide CallsOf;
    if n > 0 {
      TurnsInOrder(x, t, n - 1);
      TurnInOrder(x, Turns(x, t, n - 1), n - 1);
    }
  }

  /** One turn keeps what was dealt with before, and deals with its lead unless the session is
      over. */
  lemma TurnInOrder(x: Terms, t: Trip, i: nat)
    requires i < |x.selected|
    requires forall key | key in t.skipped :: key in x.selected && AttemptsOf(t.w, key) >= 2 && key !in t.w.completed
    ensures var r := Turn(x, t, i);
            && (forall key | DealtWith(t, key) :: DealtWith(r, key))
            && (!r.over ==> DealtWith(r, x.selected[i]))
            && (r.over && !t.over ==> r.stopped || r.w.breaker)
            && (r.stopped && !t.stopped ==> x.late(i) && !t.over)
            && (t.over ==> r == t)
            && (t.stopped ==> r.stopped)
            && (t.w.breaker ==> r.w == t.w)
            && (forall key | key in r.skipped ::
                  key in x.selected && AttemptsOf(r.w, key) >= 2 && key !in r.w.completed)
  {
  }

  /** What a session adds to `w`: for each of `turns`, in order and in time, one call of that
      lead and one outcome, which is a failure exactly when that turn's was. */
  ghost predicate Played(x: Terms, w: World, w': World, turns: seq<nat>) {
    && |w'.outcomes| == |w.outcomes| + |turns| && w.outcomes <= w'.outcomes
    && |w'.calls| == |w.calls| + |turns| && w.calls <= w'.calls
    && (forall j, k | 0 <= j < k < |turns| :: turns[j] < turns[k])
    && forall k | 0 <= k < |turns| ::
         && turns[k] < |x.selected| && !x.late(turns[k])
         && w'.calls[|w.calls| + k] == Call(x.selected[turns[k]], |w.outcomes| + k)
         && w'.outcomes[|w.outcomes| + k] == x.failure(turns[k])
  }

  lemma PlayedNext(x: Terms, w: World, w': World, turns: seq<nat>, i: nat)
    requires Played(x, w, w', turns) && i < |x.selected| && !x.late(i)
    requires forall k | 0 <= k < |turns| :: turns[k] < i
    ensures Played(x, w, Served(w', x.selected[i], x.failure(i)), turns + [i])
  {
    var r := Served(w', x.selected[i], x.failure(i));
    assert r.calls == w'.calls + [Call(x.selected[i], |w'.outcomes|)] && r.outcomes == w'.outcomes + [x.failure(i)];
  }

  lemma {:induction false} TurnsPlayed(x: Terms, w: World, n: nat) returns (turns: seq<nat>)
    requires n <= |x.selected|
    ensures Played(x, w, Turns(x, Opening(w), n).w, turns) && forall k | 0 <= k < |turns| :: turns[k] < n
  {
    hide Played, Served, CallsOf;
    if n == 0 {
      turns := [];
      NothingPlayed(x, w);
    } else {
      turns := TurnsPlayed(x, w, n - 1);
      var t := Turns(x, Opening(w), n - 1);
      if Turn(x, t, n - 1).w != t.w {
        PlayedNext(x, w, t.w, turns, n - 1);
        turns := turns + [n - 1];
      }
    }
  }

  lemma NothingPlayed(x: Terms, w: World)
    ensures Played(x, w, Opening(w).w, [])
  {
  }

  predicate InTime(selected: seq<string>, late: nat -> bool, key: string) {
    exists i :: 0 <= i < |selected| && selected[i] == key && !late(i)
  }

  lemma TurnInTime(selected: seq<string>, late: nat -> bool, i: nat)
    requires i < |selected| && !late(i)
    ensures InTime(selected, late, selected[i])
  {
  }

  lemma NoTurns(x: Terms, t: Trip)
    ensures Turns(x, t, 0) == t
  {
  }

  lemma TurnNext(x: Terms, t: Trip, i: nat)
    requires i < |x.selected|
    ensures Turns(x, t, i + 1) == Turn(x, Turns(x, t, i), i)
  {
  }

  /** Once the session is over no turn changes anything. */
  lemma {:induction false} TurnsStay(x: Terms, t: Trip, i: nat, n: nat)
    requires i <= n <= |x.selected| && (i < n ==> Turns(x, t, i).over)
    ensures Turns(x, t, n) == Turns(x, t, i)
  {
    if i < n { TurnsStay(x, t, i, n - 1); }
  }

  class Probe {
    var w: World
    var run: seq<World>

    ghost predicate Valid()
      reads this
    {
      Run(run) && run[0] == START && run[|run| - 1] == w
    }

    constructor ()
      ensures Valid() && run == [START]
    {
      w, run := START, [START];
    }

    method Do(w': World)
      requires Valid() && Step(w, w')
      modifies this
      ensures Valid() && w == w' && run == old(run) + [w']
    {
      w, run := w', run + [w'];
    }

    method Reopen()
      requires Valid()
      modifies this
      ensures Valid() && old(run) <= run && w == Reopened(old(w))
      // a lead left in flight without a result counts as interrupted, after at least one attempt
      ensures var was, lost := old(w), old(w).inFlight.Some? && old(w).inFlight.value !in old(w).completed;
              && w.inFlight == None && w.completed == was.completed && w.breaker == was.breaker
              && w.outcomes == was.outcomes && w.calls == was.calls
              && w.interrupted == was.interrupted + (if lost then [was.inFlight.value] else [])
              && forall key ::
                   AttemptsOf(w, key) == (if lost && key == was.inFlight.value && AttemptsOf(was, key) == 0 then 1
                                          else AttemptsOf(was, key))
    {
      Do(Reopened(w));
    }

    /** One attempt: counted first, then the call, the result file, the outcome. */
    method Attempt(key: string, failure: bool)
      requires Valid() && MayAttempt(w, key)
      modifies this
      ensures Valid() && old(run) <= run
      ensures w == Served(old(w), key, failure)
      ensures w.inFlight == None && w.calls == old(w.calls) + [Call(key, |old(w.outcomes)|)]
    {
      Do(Attempted(w, key));
      Do(Called(w));
      Do(w.(stage := Returned));
      Do(Recorded(w, failure));
    }

    /** A session over the selected leads.  It reports the leads it skipped because both
        attempts were consumed, and whether it stopped for its budget. */
    method Session(selected: seq<string>, late: nat -> bool, failure: nat -> bool) returns (skipped: seq<string>,
        stopped: bool)
      requires Valid()
      modifies this
      ensures Valid() && old(run) <= run && w.inFlight == None
      // the outcomes, the attempts and the calls are those of the turns
      ensures var t := Turns(Terms(selected, late, failure), Opening(old(w)), |selected|);
              w == t.w && skipped == t.skipped && stopped == t.stopped
      ensures forall key | key in skipped :: key in selected && AttemptsOf(w, key) >= 2 && key !in w.completed
      ensures !stopped && !w.breaker ==> forall i | 0 <= i < |selected| ::
                selected[i] in w.completed || selected[i] in skipped
      ensures old(w).breaker ==> w.calls == old(w).calls && w.breaker
      // the session stops for its budget only, and calls only leads whose turn came in time
      ensures stopped ==> exists i :: 0 <= i < |selected| && late(i)
                                      && forall j | 0 <= j < i :: selected[j] in w.completed || selected[j] in skipped
      ensures old(w.calls) <= w.calls
      ensures forall c | |old(w.calls)| <= c < |w.calls| :: InTime(selected, late, w.calls[c].key)
      ensures exists turns :: Played(Terms(selected, late, failure), old(w), w, turns)
    {
      hide Run, Step, InTime, Turns, Served, Played;
      ghost var x, start := Terms(selected, late, failure), Opening(w);
      skipped, stopped := [], false;
      Reopen();
      NoTurns(x, start);
      var over, i := false, 0;
      while i < |selected| && !over
        invariant Valid() && old(run) <= run && w.inFlight == None && i <= |selected|
        invariant Turns(x, start, i) == Trip(w, skipped, stopped, over)
        invariant old(w.calls) <= w.calls
        invariant forall c | |old(w.calls)| <= c < |w.calls| :: InTime(selected, late, w.calls[c].key)
      {
        var key := selected[i];
        TurnNext(x, start, i);
        if key in w.completed {
        } else if w.breaker {
          over := true;
        } else if late(i) {
          stopped, over := true, true;
        } else if AttemptsOf(w, key) >= 2 {
          skipped := skipped + [key];
        } else {
          TurnInTime(selected, late, i);
          Attempt(key, failure(i));
        }
        i := i + 1;
      }
      TurnsStay(x, start, i, |selected|);
      TurnsInOrder(x, start, |selected|);
      ghost var turns := TurnsPlayed(x, old(w), |selected|);
    }

    /** Power is lost at the `k`-th action. */
    method Crash(k: nat)
      requires Valid() && k < |run|
      modifies this
      ensures Valid() && run == old(run)[..k + 1] && w == old(run)[k]
    {
      w, run := run[k], run[..k + 1];
    }
  }
}
