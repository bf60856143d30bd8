/**
 The barrier as a state machine. Every call runs under the lock, so it is one step up to the point
 where it may sleep; a sleeper that has been woken takes the lock again in a later step and looks at
 the count once more. Sleepers may also wake up without a broadcast.
 */
module Barrier {

  type Thread = nat

  /** Where a thread is in `Wait` or `Increment`. */
  datatype Status = Asleep | Woken | Returned

  /** A barrier: its count, and the threads that have called `Wait` or `Increment`. */
  datatype State = State(count: int, threads: map<Thread, Status>)

  datatype Step =
    | Pass
    | Wait(t: Thread)
    | Increment(t: Thread, delta: int)
    | Init(count: int)
    | Resume(t: Thread)
    | WakeUp(t: Thread)

  // ----- steps -----

  /** A broadcast wakes every sleeper. */
  function Broadcast(threads: map<Thread, Status>): (r: map<Thread, Status>)
    ensures r.Keys == threads.Keys
    ensures forall t {:trigger r[t]} | t in threads :: r[t] == if threads[t] == Asleep then Woken else threads[t]
  {
    map t | t in threads :: if threads[t] == Asleep then Woken else threads[t]
  }

  /** `SetCountLocked`. */
  function SetCount(s: State, count: int): State {
    State(count, if count == 0 then Broadcast(s.threads) else s.threads)
  }

  /** The loop of `Increment`: sleep while the count is not zero. */
  function Look(s: State, t: Thread): State {
    s.(threads := s.threads[t := if s.count == 0 then Returned else Asleep])
  }

  /** `Increment`, up to the first sleep; `Wait` is an increment by -1. */
  function Enter(s: State, t: Thread, delta: int): State {
    Look(SetCount(s, s.count + delta), t)
  }

  /** A thread makes one call at a time. */
  ghost predicate Enabled(s: State, step: Step) {
    match step
    case Pass => true
    case Wait(t) => t in s.threads ==> s.threads[t] == Returned
    case Increment(t, _) => t in s.threads ==> s.threads[t] == Returned
    case Init(_) => true
    case Resume(t) => t in s.threads && s.threads[t] == Woken
    case WakeUp(t) => t in s.threads && s.threads[t] == Asleep
  }

  ghost function Next(s: State, step: Step): State
    requires Enabled(s, step)
  {
    match step
    case Pass => SetCount(s, s.count - 1)
    case Wait(t) => Enter(s, t, -1)
    case Increment(t, delta) => Enter(s, t, delta)
    case Init(count) => SetCount(s, count)
    case Resume(t) => Look(s, t)
    case WakeUp(t) => s.(threads := s.threads[t := Woken])
  }

  /** The state after a run; none if a step was not possible. */
  datatype Outcome = Stuck | Reached(state: State)

  ghost function Run(s: State, steps: seq<Step>): Outcome {
    if steps == [] then Reached(s)
    else
      var before := Run(s, steps[..|steps| - 1]);
      var step := steps[|steps| - 1];
      if before.Reached? && Enabled(before.state, step) then Reached(Next(before.state, step)) else Stuck
  }

  // ----- nobody sleeps at zero -----

  ghost predicate NobodySleepsAtZero(s: State) {
    s.count == 0 ==> forall t {:trigger s.threads[t]} | t in s.threads :: s.threads[t] != Asleep
  }

  lemma StepKeepsAwake(s: State, step: Step)
    requires NobodySleepsAtZero(s) && Enabled(s, step)
    ensures NobodySleepsAtZero(Next(s, step))
  {
  }

  /** In every run, of any calls in any order, a count of zero means that nobody is asleep. */
  lemma {:induction false} NobodySleeps(count: int, steps: seq<Step>)
    ensures var end := Run(State(count, map[]), steps); end.Reached? ==> NobodySleepsAtZero(end.state)
  {
    if steps != [] {
      var rest := steps[..|steps| - 1];
      NobodySleeps(count, rest);
      var before := Run(State(count, map[]), rest);
      if before.Reached? && Enabled(before.state, steps[|steps| - 1]) {
        StepKeepsAwake(before.state, steps[|steps| - 1]);
      }
    }
  }

  // ----- one round -----

  /** The calls of `Pass` and `Wait` in a run. */
  ghost function Arrivals(steps: seq<Step>): nat {
    if steps == [] then 0
    else Arrivals(steps[..|steps| - 1]) + if steps[|steps| - 1].Pass? || steps[|steps| - 1].Wait? then 1 else 0
  }

  ghost function Increments(steps: seq<Step>): nat {
    if steps == [] then 0
    else Increments(steps[..|steps| - 1]) + if steps[|steps| - 1].Increment? then 1 else 0
  }

  /** A run of one round for `k` arrivals: at most `k` calls of `Pass` or `Wait`, at most one
      `Increment(k)`, no `Init`; in any order. */
  ghost predicate OneRound(steps: seq<Step>, k: nat) {
    && Arrivals(steps) <= k && Increments(steps) <= 1
    && forall i {:trigger steps[i]} | 0 <= i < |steps| ::
         !steps[i].Init? && (steps[i].Increment? ==> steps[i].delta == k)
  }

  lemma RoundPrefix(steps: seq<Step>, k: nat)
    requires OneRound(steps, k) && steps != []
    ensures OneRound(steps[..|steps| - 1], k)
  {
    var rest := steps[..|steps| - 1];
    forall i | 0 <= i < |rest| ensures !rest[i].Init? && (rest[i].Increment? ==> rest[i].delta == k) {
      assert rest[i] == steps[i];
    }
  }

  /** During the round the count says how many are missing, counted from `-k` before the increment
      and from 0 after it, and nobody has returned unless all have come. */
  ghost predicate RoundOk(s: State, arrivals: nat, increments: nat, k: nat) {
    && s.count == increments * k - arrivals
    && NobodySleepsAtZero(s)
    && (forall t {:trigger s.threads[t]} | t in s.threads && s.threads[t] == Returned :: arrivals == k && increments == 1)
    && (arrivals == 0 && increments == 0 ==> s.threads == map[])
  }

  lemma RoundStep(s: State, step: Step, arrivals: nat, increments: nat, k: nat)
    requires RoundOk(s, arrivals, increments, k) && Enabled(s, step)
    requires !step.Init? && (step.Increment? ==> step.delta == k && increments == 0)
    requires step.Pass? || step.Wait? ==> arrivals < k
    requires arrivals <= k && increments <= 1
    ensures RoundOk(Next(s, step), arrivals + (if step.Pass? || step.Wait? then 1 else 0),
                    increments + (if step.Increment? then 1 else 0), k)
  {
    StepKeepsAwake(s, step);
  }

  lemma {:induction false} RoundInvariant(steps: seq<Step>, k: nat)
    requires OneRound(steps, k)
    ensures var end := Run(State(0, map[]), steps);
            end.Reached? ==> RoundOk(end.state, Arrivals(steps), Increments(steps), k)
  {
    if steps != [] {
      var rest, step := steps[..|steps| - 1], steps[|steps| - 1];
      RoundPrefix(steps, k);
      RoundInvariant(rest, k);
      var before := Run(State(0, map[]), rest);
      if before.Reached? && Enabled(before.state, step) {
        RoundStep(before.state, step, Arrivals(rest), Increments(rest), k);
      }
    }
  }

  /** A call that has returned did so after all `k` arrivals and the increment. */
  lemma {:induction false} ReturnsAfterAll(steps: seq<Step>, k: nat, t: Thread)
    requires OneRound(steps, k) && Run(State(0, map[]), steps).Reached?
    requires t in Run(State(0, map[]), steps).state.threads
    requires Run(State(0, map[]), steps).state.threads[t] == Returned
    ensures Arrivals(steps) == k && Increments(steps) == 1
  {
    RoundInvariant(steps, k);
  }

  /** After all have come nobody is asleep, and a woken thread returns at its next step. */
  lemma {:induction false} NobodyLeftBehind(steps: seq<Step>, k: nat, t: Thread)
    requires OneRound(steps, k) && Run(State(0, map[]), steps).Reached?
    requires Arrivals(steps) == k && Increments(steps) == 1
    requires t in Run(State(0, map[]), steps).state.threads
    ensures var s := Run(State(0, map[]), steps).state;
            && s.count == 0 && s.threads[t] != Asleep
            && (s.threads[t] == Woken ==> Enabled(s, Resume(t)) && Next(s, Resume(t)).threads[t] == Returned)
  {
    RoundInvariant(steps, k);
  }

  /** Only resumes and spurious wake-ups: no new call. */
  ghost predicate OnlyResumes(steps: seq<Step>) {
    forall i {:trigger steps[i]} | 0 <= i < |steps| :: steps[i].Resume? || steps[i].WakeUp?
  }

  lemma {:induction false} ResumesReturn(s: State, steps: seq<Step>, t: Thread)
    requires s.count == 0 && t in s.threads && s.threads[t] != Asleep
    requires OnlyResumes(steps) && Run(s, steps).Reached?
    ensures var end := Run(s, steps).state;
            && end.count == 0 && t in end.threads && end.threads[t] != Asleep
            && (end.threads[t] == Returned <==> s.threads[t] == Returned || Resume(t) in steps)
  {
    if steps != [] {
      var rest, step := steps[..|steps| - 1], steps[|steps| - 1];
      assert steps == rest + [step];
      assert forall i {:trigger rest[i]} | 0 <= i < |rest| :: rest[i] == steps[i];
      ResumesReturn(s, rest, t);
    }
  }

  /** After a round is complete, however the remaining steps are interleaved, a thread that was still
      inside its call has left it if and only if it has had a step of its own. */
  lemma {:induction false} EveryoneReturns(steps: seq<Step>, more: seq<Step>, k: nat, t: Thread)
    requires OneRound(steps, k) && Run(State(0, map[]), steps).Reached?
    requires Arrivals(steps) == k && Increments(steps) == 1
    requires t in Run(State(0, map[]), steps).state.threads
    requires OnlyResumes(more) && Run(Run(State(0, map[]), steps).state, more).Reached?
    ensures var s := Run(State(0, map[]), steps).state;
            var end := Run(s, more).state;
            t in end.threads && (end.threads[t] == Returned <==> s.threads[t] == Returned || Resume(t) in more)
  {
    NobodyLeftBehind(steps, k, t);
    ResumesReturn(Run(State(0, map[]), steps).state, more, t);
  }

  // ----- as a latch -----

  /** A run of a barrier created with `count`: at most `count` calls of `Pass` or `Wait`. */
  ghost predicate LatchRun(steps: seq<Step>, count: nat) {
    && Arrivals(steps) <= count
    && forall i {:trigger steps[i]} | 0 <= i < |steps| :: !steps[i].Init? && !steps[i].Increment?
  }

  ghost predicate LatchOk(s: State, arrivals: nat, count: nat) {
    && s.count == count - arrivals && NobodySleepsAtZero(s)
    && forall t {:trigger s.threads[t]} | t in s.threads && s.threads[t] == Returned :: arrivals == count
  }

  lemma {:induction false} LatchInvariant(steps: seq<Step>, count: nat)
    requires LatchRun(steps, count)
    ensures var end := Run(State(count, map[]), steps); end.Reached? ==> LatchOk(end.state, Arrivals(steps), count)
  {
    if steps != [] {
      var rest, step := steps[..|steps| - 1], steps[|steps| - 1];
      assert forall i {:trigger rest[i]} | 0 <= i < |rest| :: rest[i] == steps[i];
      LatchInvariant(rest, count);
      var before := Run(State(count, map[]), rest);
      if before.Reached? && Enabled(before.state, step) {
        StepKeepsAwake(before.state, step);
      }
    }
  }

  /** A waiter returns only after all `count` arrivals, and then nobody is asleep. */
  lemma {:induction false} LatchOpensAtLast(steps: seq<Step>, count: nat, t: Thread)
    requires LatchRun(steps, count) && Run(State(count, map[]), steps).Reached?
    requires t in Run(State(count, map[]), steps).state.threads
    ensures var s := Run(State(count, map[]), steps).state;
            && (s.threads[t] == Returned ==> Arrivals(steps) == count)
            && (Arrivals(steps) == count ==> s.count == 0 && s.threads[t] != Asleep)
  {
    LatchInvariant(steps, count);
  }

  // ----- the limits of reuse -----

  /** The count after some steps. */
  function CountAfter(count: int, steps: seq<Step>): int {
    if steps == [] then count
    else
      var before := CountAfter(count, steps[..|steps| - 1]);
      match steps[|steps| - 1]
      case Pass => before - 1
      case Wait(_) => before - 1
      case Increment(_, delta) => before + delta
      case Init(c) => c
      case _ => before
  }

  lemma {:induction false} CountIs(s: State, steps: seq<Step>)
    requires Run(s, steps).Reached?
    ensures Run(s, steps).state.count == CountAfter(s.count, steps)
  {
    if steps != [] {
      CountIs(s, steps[..|steps| - 1]);
    }
  }

  /** Whatever the others do, a woken thread stays woken until its own step. */
  lemma {:induction false} WokenStaysWoken(s: State, steps: seq<Step>, t: Thread)
    requires t in s.threads && s.threads[t] == Woken && Resume(t) !in steps && Run(s, steps).Reached?
    ensures t in Run(s, steps).state.threads && Run(s, steps).state.threads[t] == Woken
  {
    if steps != [] {
      var rest, step := steps[..|steps| - 1], steps[|steps| - 1];
      assert steps == rest + [step];
      WokenStaysWoken(s, rest, t);
    }
  }

  lemma {:induction false} RunMore(s: State, steps: seq<Step>, step: Step)
    requires Run(s, steps).Reached? && Enabled(Run(s, steps).state, step)
    ensures Run(s, steps + [step]) == Reached(Next(Run(s, steps).state, step))
  {
    var all := steps + [step];
    assert all[..|all| - 1] == steps;
  }

  /** A woken thread leaves its call at its next step if and only if the calls made in between leave
      the count at zero; otherwise it goes back to sleep. */
  lemma {:induction false} ReturnsIfCountIsZero(s: State, steps: seq<Step>, t: Thread)
    requires t in s.threads && s.threads[t] == Woken && Resume(t) !in steps && Run(s, steps).Reached?
    ensures var end := Run(s, steps + [Resume(t)]);
            && end.Reached? && t in end.state.threads
            && end.state.threads[t] == if CountAfter(s.count, steps) == 0 then Returned else Asleep
  {
    WokenStaysWoken(s, steps, t);
    CountIs(s, steps);
    RunMore(s, steps, Resume(t));
  }

  /** The caution in the header: a waiter that has been woken but has not left goes back to sleep if
      the count is set again, although everybody it waited for has come. */
  lemma ReuseTooEarly()
    ensures var steps := [Wait(0), Pass, Init(1), Resume(0)];
            && Run(State(2, map[]), steps[..2]).Reached? && Run(State(2, map[]), steps[..2]).state.count == 0
            && Run(State(2, map[]), steps) == Reached(State(1, map[0 := Asleep]))
  {
    var steps := [Wait(0), Pass, Init(1), Resume(0)];
    var start := State(2, map[]);
    assert steps[..3][..2] == steps[..2] && steps[..2][..1] == steps[..1] && steps[..1][..0] == [];
    assert steps[..4] == steps;
    assert Run(start, steps[..1][..0]) == Reached(start);
    assert Run(start, steps[..1]) == Reached(State(1, map[0 := Asleep]));
    assert Broadcast(map[0 := Asleep]) == map[0 := Woken];
    assert Run(start, steps[..2]) == Reached(State(0, map[0 := Woken]));
    assert Run(start, steps[..3]) == Reached(State(1, map[0 := Woken]));
  }
}
