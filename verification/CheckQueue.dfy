/**
 * The parallel check queue: one master and any number of workers share a stack of checks under one mutex and two
 * condition variables. Each critical section is one atomic step; the checks themselves run between the steps, so a
 * run is any interleaving of the steps below, with arbitrary check outcomes and with spurious wake-ups.
 */
module CheckQueue {
  import opened Numbers
  import opened Prelude

  /** Counters of the queue are unsigned 32-bit words. */
  const WORD := 0x1_0000_0000

  /** The fields guarded by the mutex. */
  datatype Shared<T, R> = Shared(queue: seq<T>, nIdle: int, nTotal: int, result: Option<R>, nTodo: int)

  /**
   * Where a thread stands between critical sections. Deciding is the inside of a critical section, at the top of
   * the inner loop; it never outlives a step.
   */
  datatype Phase<T> =
    | Outside
    | Notifying(all: bool)
    | Deciding
    | Waiting(signaled: bool)
    | Working(nNow: nat, rest: seq<T>, doWork: bool)

  /** `local` is local_result: it survives from batch to batch, and for a worker from session to session. */
  datatype Thread<T, R> = Thread(phase: Phase<T>, local: Option<R>)

  datatype Failure<T, R> = Failure(check: T, error: R)

  /** What happened to the checks added since the last completed session. */
  datatype Session<T(==), R(==)> = Session(
    added: multiset<T>,
    executed: multiset<T>,
    skipped: multiset<T>,
    failures: set<Failure<T, R>>
  )

  /** A value returned by Complete, with the session it was returned for. */
  datatype Verdict<T(==), R(==)> = Verdict(result: Option<R>, session: Session<T, R>)

  /** Thread 0 is the master: the thread that adds checks and calls Complete. */
  datatype State<T(==), R(==)> = State(
    shared: Shared<T, R>,
    threads: seq<Thread<T, R>>,
    session: Session<T, R>,
    verdicts: seq<Verdict<T, R>>
  )

  function NewSession<T(==), R(==)>(): Session<T, R> {
    Session(multiset{}, multiset{}, multiset{}, {})
  }

  function Initial<T(==), R(==)>(workers: nat): State<T, R> {
    State(Shared([], 0, 0, None, 0), seq(workers + 1, _ => Thread(Outside, None)), NewSession(), [])
  }

  // ----- the steps -----

  /**
   * Enter(t): thread t calls Loop and runs its first critical section.
   * Execute(t, outcome): thread t runs the next check of its batch, which returns outcome.
   * Finish(t): thread t has left its batch and runs the next critical section.
   * Wake(t): the wait of thread t returns, because it was signalled or spuriously.
   * Add(checks), Notify(w): the two halves of Add; w is the worker that notify_one picks.
   */
  datatype Step<T, R> =
    | Add(checks: seq<T>)
    | Notify(w: int)
    | Enter(t: nat)
    | Execute(t: nat, outcome: Option<R>)
    | Finish(t: nat)
    | Wake(t: nat)

  /** The batch is over: every check ran, or one failed, or no work was needed. */
  predicate BatchOver<T, R>(th: Thread<T, R>)
    requires th.phase.Working?
  {
    th.phase.rest == [] || !th.phase.doWork || (|th.phase.rest| < th.phase.nNow && th.local.Some?)
  }

  predicate Asleep<T, R>(th: Thread<T, R>) {
    th.phase.Waiting? && !th.phase.signaled
  }

  predicate Enabled<T, R>(s: State<T, R>, step: Step<T, R>) {
    match step
    case Add(checks) => |s.threads| > 0 && s.threads[0].phase.Outside?
    case Notify(w) =>
      && |s.threads| > 0 && s.threads[0].phase.Notifying?
      && (s.threads[0].phase.all
          || (0 < w < |s.threads| && Asleep(s.threads[w]))
          || (w == 0 && forall i | 0 < i < |s.threads| :: !Asleep(s.threads[i])))
    case Enter(t) => t < |s.threads| && s.threads[t].phase.Outside?
    case Execute(t, outcome) => t < |s.threads| && s.threads[t].phase.Working? && !BatchOver(s.threads[t])
    case Finish(t) => t < |s.threads| && s.threads[t].phase.Working? && BatchOver(s.threads[t])
    case Wake(t) => t < |s.threads| && s.threads[t].phase.Waiting?
  }

  function SetThread<T, R>(s: State<T, R>, t: nat, th: Thread<T, R>): State<T, R>
    requires t < |s.threads|
  {
    s.(threads := s.threads[t := th])
  }

  function Signal<T, R>(th: Thread<T, R>): Thread<T, R> {
    if th.phase.Waiting? then th.(phase := Waiting(true)) else th
  }

  function SignalWorkers<T, R>(threads: seq<Thread<T, R>>): seq<Thread<T, R>> {
    seq(|threads|, i requires 0 <= i < |threads| => if i > 0 then Signal(threads[i]) else threads[i])
  }

  /** The locked half of Add, for a non-empty list of checks. */
  function Push<T, R>(s: State<T, R>, checks: seq<T>): State<T, R>
    requires |s.threads| > 0
  {
    var shared := s.shared.(queue := s.shared.queue + checks, nTodo := (s.shared.nTodo + |checks|) % WORD);
    SetThread(s.(shared := shared, session := s.session.(added := s.session.added + multiset(checks))),
      0, s.threads[0].(phase := Notifying(|checks| != 1)))
  }

  function NotifyWorkers<T, R>(s: State<T, R>, w: int): State<T, R>
    requires |s.threads| > 0 && s.threads[0].phase.Notifying? && 0 <= w < |s.threads|
  {
    var woken := if s.threads[0].phase.all then SignalWorkers(s.threads) else s.threads[w := Signal(s.threads[w])];
    s.(threads := woken[0 := s.threads[0].(phase := Outside)])
  }

  function Join<T, R>(s: State<T, R>, t: nat): State<T, R>
    requires t < |s.threads|
  {
    SetThread(s.(shared := s.shared.(nTotal := s.shared.nTotal + 1)), t, Thread(Deciding, None))
  }

  function RunCheck<T, R>(s: State<T, R>, t: nat, outcome: Option<R>): State<T, R>
    requires t < |s.threads| && s.threads[t].phase.Working? && s.threads[t].phase.rest != []
  {
    var ph := s.threads[t].phase;
    var failures := if outcome.Some? then {Failure(ph.rest[0], outcome.value)} else {};
    SetThread(
      s.(session := s.session.(executed := s.session.executed + multiset{ph.rest[0]},
                               failures := s.session.failures + failures)),
      t, Thread(ph.(rest := ph.rest[1..]), outcome))
  }

  /** The clean-up of the previous round: hand over an error, subtract the batch, tell the master if all is done. */
  function Settle<T, R>(s: State<T, R>, t: nat): State<T, R>
    requires t < |s.threads| && s.threads[t].phase.Working?
  {
    var th := s.threads[t];
    var handsOver := th.local.Some? && s.shared.result.None?;
    var nTodo := (s.shared.nTodo - th.phase.nNow) % WORD;
    var settled := SetThread(
      s.(shared := s.shared.(result := if handsOver then th.local else s.shared.result, nTodo := nTodo),
         session := s.session.(skipped := s.session.skipped + multiset(th.phase.rest))),
      t, Thread(Deciding, if handsOver then None else th.local));
    if nTodo == 0 && t != 0 then SetThread(settled, 0, Signal(settled.threads[0])) else settled
  }

  function Rouse<T, R>(s: State<T, R>, t: nat): State<T, R>
    requires t < |s.threads|
  {
    SetThread(s.(shared := s.shared.(nIdle := s.shared.nIdle - 1)), t, s.threads[t].(phase := Deciding))
  }

  /** How many checks a thread takes from a queue. */
  function BatchSize<T, R>(batch: nat, shared: Shared<T, R>): int
    requires shared.nTotal + shared.nIdle + 1 > 0
  {
    Max(1, Min(batch, (|shared.queue| % WORD) / (shared.nTotal + shared.nIdle + 1)))
  }

  /** The inner loop: return the verdict, wait, or take a batch. */
  function Decide<T, R>(batch: nat, s: State<T, R>, t: nat): State<T, R>
    requires t < |s.threads| && s.shared.nTotal + s.shared.nIdle + 1 > 0
  {
    var sh := s.shared;
    if sh.queue == [] then
      if t == 0 && sh.nTodo == 0 then
        SetThread(s.(shared := sh.(nTotal := sh.nTotal - 1, result := None), session := NewSession(),
                     verdicts := s.verdicts + [Verdict(sh.result, s.session)]),
          t, s.threads[t].(phase := Outside))
      else
        SetThread(s.(shared := sh.(nIdle := sh.nIdle + 1)), t, s.threads[t].(phase := Waiting(false)))
    else
      BatchBound(batch, sh);
      var keep := |sh.queue| - BatchSize(batch, sh);
      SetThread(s.(shared := sh.(queue := sh.queue[..keep])), t,
        s.threads[t].(phase := Working(|sh.queue| - keep, sh.queue[keep..], sh.result.None?)))
  }

  /** No batch is empty, and none is larger than the queue or than the larger of 1 and the batch limit. */
  lemma BatchBound<T, R>(batch: nat, sh: Shared<T, R>)
    requires sh.queue != [] && sh.nTotal + sh.nIdle + 1 > 0
    ensures 1 <= BatchSize(batch, sh) <= |sh.queue|
    ensures BatchSize(batch, sh) <= Max(1, batch)
  {
    var n, d := |sh.queue| % WORD, sh.nTotal + sh.nIdle + 1;
    assert n / d <= n by { QuotientBounds(n, d); }
  }

  /** A batch of two or more is the largest that is within the limit and within an equal share of the queue. */
  lemma BatchIsLargest<T, R>(batch: nat, sh: Shared<T, R>, n: nat)
    requires sh.nTotal + sh.nIdle + 1 > 0 && n >= 2
    ensures n <= BatchSize(batch, sh) <==>
            n <= batch && n * (sh.nTotal + sh.nIdle + 1) <= |sh.queue| % 0x1_0000_0000
  {
    var q, d := |sh.queue| % WORD, sh.nTotal + sh.nIdle + 1;
    AtMostQuotient(q, d, n);
  }

  /** A batch taken after an error is recorded is not run at all; one taken before is run from its first check on. */
  lemma NoWorkAfterError<T, R>(batch: nat, s: State<T, R>, t: nat, outcome: Option<R>)
    requires t < |s.threads| && s.shared.queue != [] && s.shared.nTotal + s.shared.nIdle + 1 > 0
    ensures var s' := Decide(batch, s, t);
            && (Enabled(s', Execute(t, outcome)) <==> s.shared.result.None?)
            && (Enabled(s', Finish(t)) <==> s.shared.result.Some?)
  {
    hide BatchSize;
    BatchBound(batch, s.shared);
  }

  /** The critical section or the check run that a step stands for. */
  function Next<T, R>(batch: nat, s: State<T, R>, step: Step<T, R>): State<T, R>
    requires Enabled(s, step) && s.shared.nTotal >= 0 && s.shared.nIdle >= 0
    requires step.Wake? ==> s.shared.nIdle > 0
  {
    match step
    case Add(checks) => if checks == [] then s else Push(s, checks)
    case Notify(w) => NotifyWorkers(s, if s.threads[0].phase.all then 0 else w)
    case Enter(t) => Decide(batch, Join(s, t), t)
    case Execute(t, outcome) => RunCheck(s, t, outcome)
    case Finish(t) => Decide(batch, Settle(s, t), t)
    case Wake(t) => Decide(batch, Rouse(s, t), t)
  }
}
