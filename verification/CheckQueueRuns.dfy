/** Every run of the check queue: any number of workers, any interleaving, any number of sessions. */
module CheckQueueRuns {
  import opened CheckQueue
  import opened CheckQueueProof
  import opened Numbers
  import opened Prelude

  /** No thread is inside a critical section. */
  ghost predicate AtRest<T, R>(ts: seq<Thread<T, R>>) {
    forall t | 0 <= t < |ts| :: !ts[t].phase.Deciding?
  }

  ghost predicate Good<T, R>(batch: nat, s: State<T, R>) {
    Inv(batch, s) && AtRest(s.threads)
  }

  /** The divisor of the batch size is positive when the step gets to it. */
  predicate Defined<T, R>(s: State<T, R>, step: Step<T, R>) {
    s.shared.nTotal >= 0 && s.shared.nIdle >= 0 && (step.Wake? ==> s.shared.nIdle > 0)
  }

  /** From a state of a run every enabled step is defined. */
  lemma StepsDefined<T, R>(batch: nat, s: State<T, R>, step: Step<T, R>)
    requires Inv(batch, s) && Enabled(s, step)
    ensures Defined(s, step)
  {
    hide ThreadsOk, ChecksOk, ResultOk, VerdictsOk, Fits, MasterOk;
    SumBound(s.threads, Joined, 1);
    SumBound(s.threads, Idle, 1);
    if step.Wake? { SumTerm(s.threads, Idle, step.t); }
  }

  ghost predicate Follows<T, R>(batch: nat, s: State<T, R>, step: Step<T, R>, s': State<T, R>) {
    Enabled(s, step) && Defined(s, step) && s' == Next(batch, s, step)
  }

  lemma InvKept<T, R>(batch: nat, s: State<T, R>, step: Step<T, R>, s': State<T, R>)
    requires Inv(batch, s) && Follows(batch, s, step, s')
    ensures Inv(batch, s')
  {
    hide Core, MasterOk, BatchOver, Decide;
    NonEmpty(batch, s);
    match step
    case Add(checks) => if checks != [] { PushKeeps(batch, s, checks); }
    case Notify(w) => NotifyKeeps(batch, s, if s.threads[0].phase.all then 0 else w);
    case Enter(t) => EnterKeeps(batch, s, t);
    case Execute(t, outcome) => RunCheckKeeps(batch, s, t, outcome);
    case Finish(t) => SettleKeeps(batch, s, t); DecideKeeps(batch, Settle(s, t), t);
    case Wake(t) => WakeKeeps(batch, s, t);
  }

  lemma EnterKeeps<T, R>(batch: nat, s: State<T, R>, t: nat)
    requires Inv(batch, s) && t < |s.threads| && s.threads[t].phase.Outside?
    requires s.shared.nTotal >= 0 && s.shared.nIdle >= 0
    ensures Inv(batch, Decide(batch, Join(s, t), t))
  {
    hide Core, Decide;
    MoveKeeps(batch, s, t, Thread(Deciding, None));
    assert Join(s, t) == Moved(s, t, Thread(Deciding, None));
    DecideKeeps(batch, Join(s, t), t);
  }

  lemma WakeKeeps<T, R>(batch: nat, s: State<T, R>, t: nat)
    requires Inv(batch, s) && t < |s.threads| && s.threads[t].phase.Waiting?
    requires s.shared.nTotal >= 0 && s.shared.nIdle > 0
    ensures Inv(batch, Decide(batch, Rouse(s, t), t))
  {
    hide Core, Decide;
    MoveKeeps(batch, s, t, s.threads[t].(phase := Deciding));
    assert Rouse(s, t) == Moved(s, t, s.threads[t].(phase := Deciding));
    DecideKeeps(batch, Rouse(s, t), t);
  }

  lemma RestKept<T, R>(batch: nat, s: State<T, R>, step: Step<T, R>, s': State<T, R>)
    requires AtRest(s.threads) && Follows(batch, s, step, s')
    ensures AtRest(s'.threads)
  {
    hide BatchSize, BatchOver;
  }

  lemma StepKeeps<T, R>(batch: nat, s: State<T, R>, step: Step<T, R>, s': State<T, R>)
    requires Good(batch, s) && Follows(batch, s, step, s')
    ensures Good(batch, s')
  {
    hide Inv, AtRest, Follows;
    InvKept(batch, s, step, s');
    RestKept(batch, s, step, s');
  }

  lemma {:induction false} SumZero<T, R>(ts: seq<Thread<T, R>>, f: Thread<T, R> -> int)
    requires forall i | 0 <= i < |ts| :: f(ts[i]) == 0
    ensures Sum(ts, f) == 0
    decreases |ts|
  {
    if ts != [] { SumZero(ts[..|ts| - 1], f); }
  }

  lemma InitialGood<T, R>(batch: nat, workers: nat)
    requires Fits(batch, workers + 1)
    ensures Good(batch, Initial<T, R>(workers))
  {
    hide Fits;
    var s := Initial<T, R>(workers);
    SumZero(s.threads, Held);
    SumZero(s.threads, Idle);
    SumZero(s.threads, Joined);
    Clean(batch, s.threads, s.session);
  }

  /** states is the history of a queue with the given workers, each state following by the step beside it. */
  ghost predicate Run<T, R>(batch: nat, workers: nat, states: seq<State<T, R>>, steps: seq<Step<T, R>>) {
    && |states| == |steps| + 1 && states[0] == Initial(workers)
    && forall k | 0 <= k < |steps| :: Follows(batch, states[k], steps[k], states[k + 1])
  }

  lemma {:induction false} RunKeeps<T, R>(
    batch: nat, workers: nat, states: seq<State<T, R>>, steps: seq<Step<T, R>>, k: nat)
    requires Fits(batch, workers + 1) && Run(batch, workers, states, steps) && k < |states|
    ensures Good(batch, states[k])
  {
    hide Good, Follows;
    if k == 0 {
      InitialGood<T, R>(batch, workers);
    } else {
      RunKeeps(batch, workers, states, steps, k - 1);
      StepKeeps(batch, states[k - 1], steps[k - 1], states[k]);
    }
  }

  const NODE_BATCH_SIZE := 128
  const MAX_SCRIPTCHECK_THREADS := 15

  /** The node's own queue is within the counter's range. */
  lemma NodeFits(workers: nat)
    requires workers <= MAX_SCRIPTCHECK_THREADS
    ensures Fits(NODE_BATCH_SIZE, workers + 1)
  {
    MulOrder(workers, MAX_SCRIPTCHECK_THREADS, NODE_BATCH_SIZE);
  }

  // ----- the promises of the queue -----

  /**
   * Every value Complete has returned in any run: nothing exactly when all checks of that session were executed and
   * none failed, and otherwise an error that a check of that same session returned.
   */
  lemma CompleteIsRight<T, R>(
    batch: nat, workers: nat, states: seq<State<T, R>>, steps: seq<Step<T, R>>, k: nat, v: Verdict<T, R>)
    requires Fits(batch, workers + 1) && Run(batch, workers, states, steps) && k < |states| && v in states[k].verdicts
    ensures v.result.None? <==> v.session.executed == v.session.added && v.session.failures == {}
    ensures v.result.Some? ==>
              exists f :: f in v.session.failures && f.error == v.result.value && f.check in v.session.added
  {
    hide Fits, Run;
    RunKeeps(batch, workers, states, steps, k);
    assert VerdictOk(v);
    if v.result.Some? {
      var f :| f in v.session.failures && f.error == v.result.value && f.check in v.session.executed;
      assert f.check in v.session.added;
    }
  }

  /**
   * In every state of every run nTodo counts the queued checks and those a thread has taken but not subtracted,
   * modulo the width of the counter, and every thread holds at least 1 and at most the batch limit of checks.
   */
  lemma TodoIsAccurate<T, R>(
    batch: nat, workers: nat, states: seq<State<T, R>>, steps: seq<Step<T, R>>, k: nat)
    requires Fits(batch, workers + 1) && Run(batch, workers, states, steps) && k < |states|
    ensures var s := states[k];
            && s.shared.nTodo == (|s.shared.queue| + Sum(s.threads, Held)) % WORD
            && (|s.shared.queue| + Sum(s.threads, Held) < WORD ==>
                  s.shared.nTodo == |s.shared.queue| + Sum(s.threads, Held))
            && (forall t | 0 <= t < |s.threads| && s.threads[t].phase.Working? ::
                  1 <= s.threads[t].phase.nNow <= Max(1, batch))
  {
    hide Fits, Run;
    RunKeeps(batch, workers, states, steps, k);
    var s := states[k];
    HeldNonNegative(batch, s);
    forall t | 0 <= t < |s.threads| && s.threads[t].phase.Working?
      ensures 1 <= s.threads[t].phase.nNow <= Max(1, batch)
    {
      ThreadFacts(batch, s, t);
    }
  }

  /**
   * In every state of every run a master blocked in wait has an empty queue, and either a notification is on its way
   * or nTodo is positive and is exactly what the workers hold.
   */
  lemma MasterIsNeverForgotten<T, R>(
    batch: nat, workers: nat, states: seq<State<T, R>>, steps: seq<Step<T, R>>, k: nat)
    requires Fits(batch, workers + 1) && Run(batch, workers, states, steps) && k < |states|
    requires states[k].threads != [] && states[k].threads[0].phase.Waiting?
    ensures var s := states[k];
            && s.shared.queue == []
            && (s.threads[0].phase.signaled || s.shared.nTodo == Sum(s.threads[1..], Held) > 0)
  {
    hide Fits, Run, Core;
    RunKeeps(batch, workers, states, steps, k);
    TodoExact(batch, states[k]);
    SumFirst(states[k].threads, Held);
  }

  // ----- Complete ends -----

  /** A step that does not depend on a spurious wake-up. */
  predicate Productive<T, R>(s: State<T, R>, step: Step<T, R>) {
    || step.Execute?
    || step.Finish?
    || (step.Wake? && step.t < |s.threads| && !Asleep(s.threads[step.t]))
  }

  predicate InLoop<T, R>(s: State<T, R>) {
    s.threads != [] && Joined(s.threads[0]) == 1
  }

  /** While Complete has not returned, some thread can go on without a spurious wake-up. */
  lemma NoDeadlock<T, R>(batch: nat, s: State<T, R>) returns (step: Step<T, R>)
    requires Good(batch, s) && InLoop(s)
    ensures Enabled(s, step) && Productive(s, step)
  {
    hide Core, BatchOver, Asleep;
    var master := s.threads[0];
    if master.phase.Waiting? && master.phase.signaled {
      step := Wake(0);
      assert !Asleep(master) by { AwakeIfSignaled(master); }
    } else {
      var t: nat := 0;
      if !master.phase.Working? { t := SumPositive(s.threads, Held); }
      step := if BatchOver(s.threads[t]) then Finish(t) else Execute(t, None);
    }
  }

  lemma AwakeIfSignaled<T, R>(th: Thread<T, R>)
    requires th.phase.Waiting? && th.phase.signaled
    ensures !Asleep(th)
  {
  }

  function Weight<T, R>(th: Thread<T, R>): int {
    match th.phase
    case Waiting(signaled) => if signaled then 1 else 0
    case Working(nNow, rest, doWork) => |rest| + 2
    case _ => 1
  }

  /** An upper bound on the steps left until Complete returns, not counting wake-ups that change nothing. */
  ghost function Work<T, R>(s: State<T, R>): int {
    4 * |s.shared.queue| + Sum(s.threads, Weight)
  }

  lemma WorkNonNegative<T, R>(s: State<T, R>)
    ensures Work(s) >= 0
  {
    WeightNonNegative(s.threads);
  }

  lemma {:induction false} WeightNonNegative<T, R>(ts: seq<Thread<T, R>>)
    ensures Sum(ts, Weight) >= 0
    decreases |ts|
  {
    if ts != [] { WeightNonNegative(ts[..|ts| - 1]); }
  }

  /** A decision takes work away, unless it puts the thread to sleep or ends the session. */
  lemma DecideWork<T, R>(batch: nat, s: State<T, R>, t: nat)
    requires t < |s.threads| && s.threads[t].phase.Deciding? && s.shared.nTotal + s.shared.nIdle + 1 > 0
    requires InLoop(Decide(batch, s, t))
    ensures Work(Decide(batch, s, t)) <= Work(s) - if s.shared.queue == [] then 1 else 2
  {
    hide BatchSize;
    if s.shared.queue != [] { BatchBound(batch, s.shared); }
    SumUpdate(s.threads, t, Decide(batch, s, t).threads[t], Weight);
  }

  lemma SettleWork<T, R>(s: State<T, R>, t: nat)
    requires t < |s.threads| && s.threads[t].phase.Working?
    ensures Work(Settle(s, t)) <= Work(s)
  {
    var u := Settled(s, t);
    SumUpdate(s.threads, t, u.threads[t], Weight);
    SumUpdate(u.threads, 0, Signal(u.threads[0]), Weight);
  }

  /** While Complete has not returned, every step that changes anything takes work away. */
  lemma StepsEnd<T, R>(batch: nat, s: State<T, R>, step: Step<T, R>, s': State<T, R>)
    requires Good(batch, s) && InLoop(s) && Follows(batch, s, step, s') && InLoop(s')
    ensures s' == s || Work(s') < Work(s)
  {
    hide Good, Decide, Work;
    match step
    case Add(checks) =>
    case Notify(w) =>
    case Enter(t) =>
      JoinWork(s, t);
      DecideWork(batch, Join(s, t), t);
    case Execute(t, outcome) =>
      ExecuteWork(s, t, outcome);
    case Finish(t) =>
      SettleWork(s, t);
      DecideWork(batch, Settle(s, t), t);
    case Wake(t) =>
      RouseWork(s, t);
      DecideWork(batch, Rouse(s, t), t);
      if Asleep(s.threads[t]) && s.shared.queue == [] { SleepOn(batch, s, t); }
  }

  lemma JoinWork<T, R>(s: State<T, R>, t: nat)
    requires t < |s.threads| && s.threads[t].phase.Outside?
    ensures Work(Join(s, t)) == Work(s)
  {
    SumUpdate(s.threads, t, Join(s, t).threads[t], Weight);
  }

  lemma ExecuteWork<T, R>(s: State<T, R>, t: nat, outcome: Option<R>)
    requires t < |s.threads| && s.threads[t].phase.Working? && s.threads[t].phase.rest != []
    ensures Work(RunCheck(s, t, outcome)) == Work(s) - 1
  {
    SumUpdate(s.threads, t, RunCheck(s, t, outcome).threads[t], Weight);
  }

  lemma RouseWork<T, R>(s: State<T, R>, t: nat)
    requires t < |s.threads| && s.threads[t].phase.Waiting?
    ensures Work(Rouse(s, t)) == Work(s) + if Asleep(s.threads[t]) then 1 else 0
  {
    SumUpdate(s.threads, t, Rouse(s, t).threads[t], Weight);
  }

  /** A wake-up with nothing queued goes back to sleep and changes nothing. */
  lemma SleepOn<T, R>(batch: nat, s: State<T, R>, t: nat)
    requires t < |s.threads| && Asleep(s.threads[t]) && s.shared.queue == []
    requires s.shared.nTotal + s.shared.nIdle > 0
    requires InLoop(Decide(batch, Rouse(s, t), t))
    ensures Decide(batch, Rouse(s, t), t) == s
  {
    var u := Decide(batch, Rouse(s, t), t);
    assert s.threads[t := Thread(Waiting(false), s.threads[t].local)] == s.threads;
  }

  /** A session: while Complete has not returned, a stretch of a run has at most Work steps that change anything. */
  lemma {:induction false} CompleteEnds<T, R>(batch: nat, states: seq<State<T, R>>, steps: seq<Step<T, R>>)
    requires |states| == |steps| + 1 && Good(batch, states[0])
    requires forall k | 0 <= k < |steps| :: Follows(batch, states[k], steps[k], states[k + 1])
    requires forall k | 0 <= k < |steps| :: states[k + 1] != states[k]
    requires forall k | 0 <= k < |states| :: InLoop(states[k])
    ensures |steps| + Work(states[|steps|]) <= Work(states[0])
    ensures |steps| <= Work(states[0])
    decreases |steps|
  {
    hide Good, Follows, Work, InLoop;
    if steps != [] {
      StepKeeps(batch, states[0], steps[0], states[1]);
      StepsEnd(batch, states[0], steps[0], states[1]);
      forall k | 0 <= k < |steps[1..]|
        ensures Follows(batch, states[1..][k], steps[1..][k], states[1..][k + 1]) &&
                states[1..][k + 1] != states[1..][k]
      {
        assert Follows(batch, states[k + 1], steps[k + 1], states[k + 1 + 1]);
        assert states[k + 1 + 1] != states[k + 1];
      }
      CompleteEnds(batch, states[1..], steps[1..]);
    }
    WorkNonNegative(states[|steps|]);
  }
}
