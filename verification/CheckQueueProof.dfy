/** What every step of the check queue keeps, and what follows for every run. */
module CheckQueueProof {
  import opened CheckQueue
  import opened Numbers
  import opened Prelude

  // ----- sums over the threads -----

  function Held<T, R>(th: Thread<T, R>): int { if th.phase.Working? then th.phase.nNow else 0 }

  function Idle<T, R>(th: Thread<T, R>): int { if th.phase.Waiting? then 1 else 0 }

  function Joined<T, R>(th: Thread<T, R>): int { if th.phase.Outside? || th.phase.Notifying? then 0 else 1 }

  function Rest<T(==), R>(th: Thread<T, R>): multiset<T> {
    if th.phase.Working? then multiset(th.phase.rest) else multiset{}
  }

  function Sum<T, R>(ts: seq<Thread<T, R>>, f: Thread<T, R> -> int): int
    decreases |ts|
  {
    if ts == [] then 0 else Sum(ts[..|ts| - 1], f) + f(ts[|ts| - 1])
  }

  function Rests<T(==), R>(ts: seq<Thread<T, R>>): multiset<T>
    decreases |ts|
  {
    if ts == [] then multiset{} else Rests(ts[..|ts| - 1]) + Rest(ts[|ts| - 1])
  }

  lemma {:induction false} SumUpdate<T, R>(ts: seq<Thread<T, R>>, i: nat, th: Thread<T, R>, f: Thread<T, R> -> int)
    requires i < |ts|
    ensures Sum(ts[i := th], f) == Sum(ts, f) - f(ts[i]) + f(th)
    decreases |ts|
  {
    var n := |ts| - 1;
    if i < n {
      assert ts[i := th][..n] == ts[..n][i := th];
      SumUpdate(ts[..n], i, th, f);
    } else {
      assert ts[i := th][..n] == ts[..n];
    }
  }

  lemma {:induction false} SumSame<T, R>(ts: seq<Thread<T, R>>, us: seq<Thread<T, R>>, f: Thread<T, R> -> int)
    requires |ts| == |us| && forall i | 0 <= i < |ts| :: f(ts[i]) == f(us[i])
    ensures Sum(ts, f) == Sum(us, f)
    decreases |ts|
  {
    if ts != [] { SumSame(ts[..|ts| - 1], us[..|us| - 1], f); }
  }

  lemma {:induction false} SumBound<T, R>(ts: seq<Thread<T, R>>, f: Thread<T, R> -> int, bound: nat)
    requires forall i | 0 <= i < |ts| :: 0 <= f(ts[i]) <= bound
    ensures 0 <= Sum(ts, f) <= |ts| * bound
    decreases |ts|
  {
    if ts != [] {
      SumBound(ts[..|ts| - 1], f, bound);
      assert |ts| * bound == (|ts| - 1) * bound + bound;
    }
  }

  /** A sum without its first summand. */
  lemma {:induction false} SumFirst<T, R>(ts: seq<Thread<T, R>>, f: Thread<T, R> -> int)
    requires ts != []
    ensures Sum(ts, f) == f(ts[0]) + Sum(ts[1..], f)
    decreases |ts|
  {
    if |ts| > 1 {
      SumFirst(ts[..|ts| - 1], f);
      assert ts[..|ts| - 1][1..] == ts[1..][..|ts| - 2];
    }
  }

  /** A summand of non-negative summands is at most the sum. */
  lemma {:induction false} SumTerm<T, R>(ts: seq<Thread<T, R>>, f: Thread<T, R> -> int, t: nat)
    requires t < |ts| && forall i | 0 <= i < |ts| :: f(ts[i]) >= 0
    ensures f(ts[t]) <= Sum(ts, f)
    decreases |ts|
  {
    var n := |ts| - 1;
    if t < n {
      SumTerm(ts[..n], f, t);
    } else if n > 0 {
      SumTerm(ts[..n], f, 0);
    }
  }

  /** A positive sum has a positive summand. */
  lemma {:induction false} SumPositive<T, R>(ts: seq<Thread<T, R>>, f: Thread<T, R> -> int) returns (t: nat)
    requires Sum(ts, f) > 0
    ensures t < |ts| && f(ts[t]) > 0
    decreases |ts|
  {
    var n := |ts| - 1;
    if f(ts[n]) > 0 {
      t := n;
    } else {
      t := SumPositive(ts[..n], f);
    }
  }

  lemma {:induction false} RestsUpdate<T, R>(ts: seq<Thread<T, R>>, i: nat, th: Thread<T, R>)
    requires i < |ts|
    ensures Rests(ts[i := th]) + Rest(ts[i]) == Rests(ts) + Rest(th)
    decreases |ts|
  {
    hide Rest;
    var n := |ts| - 1;
    if i < n {
      assert ts[i := th][..n] == ts[..n][i := th];
      RestsUpdate(ts[..n], i, th);
      AddToBoth(Rests(ts[..n][i := th]), Rest(ts[i]), Rests(ts[..n]), Rest(th), Rest(ts[n]));
    } else {
      assert ts[i := th][..n] == ts[..n];
    }
  }

  lemma AddToBoth<T>(a: multiset<T>, b: multiset<T>, c: multiset<T>, d: multiset<T>, more: multiset<T>)
    requires a + b == c + d
    ensures a + more + b == c + more + d
  {
    assert a + more + b == (a + b) + more;
    assert c + more + d == (c + d) + more;
  }

  lemma RestsKeep<T, R>(ts: seq<Thread<T, R>>, i: nat, th: Thread<T, R>)
    requires i < |ts| && Rest(th) == Rest(ts[i])
    ensures Rests(ts[i := th]) == Rests(ts)
  {
    hide Rest, Rests;
    RestsUpdate(ts, i, th);
    Cancel(Rests(ts[i := th]), Rests(ts), Rest(th));
  }

  lemma Cancel<T>(a: multiset<T>, b: multiset<T>, c: multiset<T>)
    requires a + c == b + c
    ensures a == b
  {
    assert a + c - c == a;
    assert b + c - c == b;
  }

  lemma {:induction false} RestsSame<T, R>(ts: seq<Thread<T, R>>, us: seq<Thread<T, R>>)
    requires |ts| == |us| && forall i | 0 <= i < |ts| :: Rest(ts[i]) == Rest(us[i])
    ensures Rests(ts) == Rests(us)
    decreases |ts|
  {
    if ts != [] { RestsSame(ts[..|ts| - 1], us[..|us| - 1]); }
  }

  lemma {:induction false} RestsEmpty<T, R>(ts: seq<Thread<T, R>>)
    requires forall i | 0 <= i < |ts| :: !ts[i].phase.Working?
    ensures Rests(ts) == multiset{}
    decreases |ts|
  {
    if ts != [] { RestsEmpty(ts[..|ts| - 1]); }
  }

  // ----- the invariant -----

  /** The counters are exact; nTodo counts the queued checks and those taken but not yet subtracted. */
  ghost predicate CountsOk<T, R>(sh: Shared<T, R>, ts: seq<Thread<T, R>>) {
    && sh.nIdle == Sum(ts, Idle)
    && sh.nTotal == Sum(ts, Joined)
    && sh.nTodo == (|sh.queue| + Sum(ts, Held)) % WORD
  }

  /** Every check added in the session is queued, held by exactly one thread, executed or skipped. */
  ghost predicate ChecksOk<T, R>(queue: seq<T>, ts: seq<Thread<T, R>>, ss: Session<T, R>) {
    ss.added == multiset(queue) + Rests(ts) + ss.executed + ss.skipped
  }

  /** e was returned by a check executed in this session. */
  ghost predicate Reported<T, R>(executed: multiset<T>, failures: set<Failure<T, R>>, e: R) {
    exists f :: f in failures && f.error == e && f.check in executed
  }

  /** A thread that skips its batch does so because of a recorded error; a fresh local result is of this session. */
  ghost predicate ThreadOk<T, R>(
    batch: nat, th: Thread<T, R>, result: Option<R>, executed: multiset<T>, failures: set<Failure<T, R>>)
  {
    th.phase.Working? ==>
      && 1 <= th.phase.nNow <= Max(1, batch)
      && |th.phase.rest| <= th.phase.nNow
      && (!th.phase.doWork ==> |th.phase.rest| == th.phase.nNow && result.Some?)
      && (|th.phase.rest| < th.phase.nNow && th.local.Some? ==> Reported(executed, failures, th.local.value))
  }

  ghost predicate ThreadsOk<T, R>(
    batch: nat, ts: seq<Thread<T, R>>, result: Option<R>, executed: multiset<T>, failures: set<Failure<T, R>>)
  {
    forall t | 0 <= t < |ts| :: ThreadOk(batch, ts[t], result, executed, failures)
  }

  /** The thread has met an error and not handed it over yet. */
  predicate Found<T, R>(th: Thread<T, R>) {
    th.phase.Working? && th.phase.doWork && |th.phase.rest| < th.phase.nNow && th.local.Some?
  }

  ghost predicate SomeFound<T, R>(ts: seq<Thread<T, R>>) {
    exists t :: 0 <= t < |ts| && Found(ts[t])
  }

  /** The recorded error is of this session, and no error or skipped check goes unrecorded. */
  ghost predicate ResultOk<T, R>(ts: seq<Thread<T, R>>, result: Option<R>, ss: Session<T, R>) {
    && (result.Some? ==> Reported(ss.executed, ss.failures, result.value))
    && (ss.skipped != multiset{} ==> result.Some?)
    && (ss.failures != {} ==> result.Some? || SomeFound(ts))
  }

  /** A master blocked in wait has nothing queued, and either a notification or workers still busy. */
  ghost predicate MasterOk<T, R>(queue: seq<T>, ts: seq<Thread<T, R>>) {
    ts != [] && ts[0].phase.Waiting? ==> queue == [] && (ts[0].phase.signaled || Sum(ts, Held) > 0)
  }

  /** Complete returned nothing exactly when all its checks ran and none failed; else an error of one of them. */
  ghost predicate VerdictOk<T, R>(v: Verdict<T, R>) {
    && (v.result.None? <==> v.session.executed == v.session.added && v.session.failures == {})
    && (v.result.Some? ==> Reported(v.session.executed, v.session.failures, v.result.value))
    && v.session.executed <= v.session.added
  }

  ghost predicate VerdictsOk<T, R>(vs: seq<Verdict<T, R>>) {
    forall k | 0 <= k < |vs| :: VerdictOk(vs[k])
  }

  /** The checks that all workers together can hold fit the counter. */
  predicate Fits(batch: nat, threads: nat) {
    (threads - 1) * Max(1, batch) < WORD
  }

  ghost predicate Core<T, R>(batch: nat, s: State<T, R>) {
    && s.threads != [] && Fits(batch, |s.threads|)
    && CountsOk(s.shared, s.threads)
    && ChecksOk(s.shared.queue, s.threads, s.session)
    && ThreadsOk(batch, s.threads, s.shared.result, s.session.executed, s.session.failures)
    && ResultOk(s.threads, s.shared.result, s.session)
    && VerdictsOk(s.verdicts)
  }

  ghost predicate Inv<T, R>(batch: nat, s: State<T, R>) {
    Core(batch, s) && MasterOk(s.shared.queue, s.threads)
  }

  // ----- each part of a step keeps it -----

  lemma HeldBound<T, R>(
    batch: nat, ts: seq<Thread<T, R>>, result: Option<R>, executed: multiset<T>, failures: set<Failure<T, R>>)
    requires ThreadsOk(batch, ts, result, executed, failures)
    ensures forall i | 0 <= i < |ts| :: 0 <= Held(ts[i]) <= Max(1, batch)
  {
    hide Reported;
    forall i | 0 <= i < |ts| ensures 0 <= Held(ts[i]) <= Max(1, batch) {
      assert ThreadOk(batch, ts[i], result, executed, failures);
    }
  }

  /** With an idle master and an empty queue, nTodo is exactly what the workers hold. */
  lemma TodoExact<T, R>(batch: nat, s: State<T, R>)
    requires Core(batch, s) && s.shared.queue == [] && !s.threads[0].phase.Working?
    ensures s.shared.nTodo == Sum(s.threads, Held)
  {
    hide ThreadsOk, ChecksOk, ResultOk, VerdictsOk;
    HeldBound(batch, s.threads, s.shared.result, s.session.executed, s.session.failures);
    SumFirst(s.threads, Held);
    SumBound(s.threads[1..], Held, Max(1, batch));
    ModSmall(Sum(s.threads, Held), WORD);
  }

  /** Replacing a thread that was not working and does not work. */
  lemma ReplaceIdle<T, R>(batch: nat, s: State<T, R>, t: nat, th: Thread<T, R>)
    requires Core(batch, s) && t < |s.threads| && !s.threads[t].phase.Working? && !th.phase.Working?
    ensures var ts := s.threads[t := th];
            && Sum(ts, Held) == Sum(s.threads, Held)
            && Rests(ts) == Rests(s.threads)
            && ThreadsOk(batch, ts, s.shared.result, s.session.executed, s.session.failures)
            && (SomeFound(s.threads) ==> SomeFound(ts))
  {
    hide Reported, CountsOk, ChecksOk, ResultOk, VerdictsOk, Fits;
    SumUpdate(s.threads, t, th, Held);
    RestsKeep(s.threads, t, th);
    KeepFound(s.threads, t, th);
  }

  lemma KeepFound<T, R>(ts: seq<Thread<T, R>>, t: nat, th: Thread<T, R>)
    requires t < |ts| && (Found(ts[t]) ==> Found(th))
    ensures SomeFound(ts) ==> SomeFound(ts[t := th])
  {
    hide Found;
    if SomeFound(ts) {
      var u :| 0 <= u < |ts| && Found(ts[u]);
      assert Found(ts[t := th][u]);
    }
  }

  lemma PushKeeps<T, R>(batch: nat, s: State<T, R>, checks: seq<T>)
    requires Inv(batch, s) && s.threads[0].phase.Outside? && checks != []
    ensures Inv(batch, Push(s, checks))
  {
    hide ThreadsOk, ResultOk, ChecksOk, CountsOk, SomeFound, Fits, VerdictsOk, Sum;
    var th := s.threads[0].(phase := Notifying(|checks| != 1));
    ReplaceIdle(batch, s, 0, th);
    MoreQueued(s.shared, s.threads, th, checks);
    MoreAdded(s.shared.queue, s.threads, s.session, checks);
    SameResult(s.threads, Push(s, checks).threads, s.shared.result, s.session, Push(s, checks).session);
    SameChecks(Push(s, checks).shared.queue, s.threads, Push(s, checks).threads, Push(s, checks).session);
  }

  lemma MoreQueued<T, R>(sh: Shared<T, R>, ts: seq<Thread<T, R>>, th: Thread<T, R>, checks: seq<T>)
    requires CountsOk(sh, ts) && ts != [] && ts[0].phase.Outside? && th.phase.Notifying?
    ensures CountsOk(sh.(queue := sh.queue + checks, nTodo := (sh.nTodo + |checks|) % WORD), ts[0 := th])
  {
    hide Sum;
    SumUpdate(ts, 0, th, Idle);
    SumUpdate(ts, 0, th, Joined);
    SumUpdate(ts, 0, th, Held);
    ModAdd(|sh.queue| + Sum(ts, Held), |checks|, WORD);
  }

  lemma MoreAdded<T, R>(queue: seq<T>, ts: seq<Thread<T, R>>, ss: Session<T, R>, checks: seq<T>)
    requires ChecksOk(queue, ts, ss)
    ensures ChecksOk(queue + checks, ts, ss.(added := ss.added + multiset(checks)))
  {
    assert multiset(queue + checks) == multiset(queue) + multiset(checks);
  }

  lemma SameResult<T, R>(
    ts: seq<Thread<T, R>>, us: seq<Thread<T, R>>, result: Option<R>, ss: Session<T, R>, zz: Session<T, R>)
    requires ResultOk(ts, result, ss) && (SomeFound(ts) ==> SomeFound(us))
    requires ss == zz.(added := ss.added)
    ensures ResultOk(us, result, zz)
  {
  }

  lemma SameChecks<T, R>(queue: seq<T>, ts: seq<Thread<T, R>>, us: seq<Thread<T, R>>, ss: Session<T, R>)
    requires ChecksOk(queue, ts, ss) && Rests(ts) == Rests(us)
    ensures ChecksOk(queue, us, ss)
  {
  }

  /** The state after thread t, not working, moves to th, not working, with the counters of idle and joined threads. */
  function Moved<T, R>(s: State<T, R>, t: nat, th: Thread<T, R>): State<T, R>
    requires t < |s.threads|
  {
    var was := s.threads[t];
    SetThread(
      s.(shared := s.shared.(nIdle := s.shared.nIdle - Idle(was) + Idle(th),
                             nTotal := s.shared.nTotal - Joined(was) + Joined(th))),
      t, th)
  }

  lemma MoveKeeps<T, R>(batch: nat, s: State<T, R>, t: nat, th: Thread<T, R>)
    requires Core(batch, s) && t < |s.threads| && !s.threads[t].phase.Working? && !th.phase.Working?
    ensures Core(batch, Moved(s, t, th)) && Sum(Moved(s, t, th).threads, Held) == Sum(s.threads, Held)
  {
    hide ThreadsOk, ResultOk, ChecksOk, SomeFound, Fits, VerdictsOk, Idle, Joined;
    ReplaceIdle(batch, s, t, th);
    SumUpdate(s.threads, t, th, Idle);
    SumUpdate(s.threads, t, th, Joined);
    SameResult(s.threads, s.threads[t := th], s.shared.result, s.session, s.session);
    SameChecks(s.shared.queue, s.threads, s.threads[t := th], s.session);
  }

  // ----- signalling -----

  /** us is ts after some waiting threads were signalled. */
  ghost predicate Signalled<T, R>(ts: seq<Thread<T, R>>, us: seq<Thread<T, R>>) {
    |ts| == |us| && forall i | 0 <= i < |ts| :: us[i] == ts[i] || us[i] == Signal(ts[i])
  }

  lemma SignalKeeps<T, R>(batch: nat, s: State<T, R>, us: seq<Thread<T, R>>)
    requires Core(batch, s) && Signalled(s.threads, us)
    ensures Core(batch, s.(threads := us)) && Sum(us, Held) == Sum(s.threads, Held)
  {
    hide Signalled, ThreadsOk, ResultOk, ChecksOk, Fits, VerdictsOk, SomeFound;
    SignalledSums(s.threads, us);
    SignalledThreads(batch, s.threads, us, s.shared.result, s.session.executed, s.session.failures);
    SameResult(s.threads, us, s.shared.result, s.session, s.session);
    SameChecks(s.shared.queue, s.threads, us, s.session);
  }

  lemma SignalledSums<T, R>(ts: seq<Thread<T, R>>, us: seq<Thread<T, R>>)
    requires Signalled(ts, us)
    ensures |ts| == |us| && Rests(us) == Rests(ts) && Sum(us, Held) == Sum(ts, Held)
    ensures Sum(us, Idle) == Sum(ts, Idle) && Sum(us, Joined) == Sum(ts, Joined)
  {
    forall i | 0 <= i < |ts| ensures Rest(ts[i]) == Rest(us[i]) { }
    SumSame(ts, us, Held);
    SumSame(ts, us, Idle);
    SumSame(ts, us, Joined);
    RestsSame(ts, us);
  }

  lemma SignalledThreads<T, R>(
    batch: nat, ts: seq<Thread<T, R>>, us: seq<Thread<T, R>>,
    result: Option<R>, executed: multiset<T>, failures: set<Failure<T, R>>)
    requires Signalled(ts, us) && ThreadsOk(batch, ts, result, executed, failures)
    ensures ThreadsOk(batch, us, result, executed, failures)
    ensures SomeFound(ts) ==> SomeFound(us)
  {
    hide Reported;
    if SomeFound(ts) {
      var t :| 0 <= t < |ts| && Found(ts[t]);
      assert Found(us[t]);
    }
    forall t | 0 <= t < |ts| ensures ThreadOk(batch, us[t], result, executed, failures) {
      assert ThreadOk(batch, ts[t], result, executed, failures);
    }
  }

  lemma NotifyKeeps<T, R>(batch: nat, s: State<T, R>, w: nat)
    requires Inv(batch, s) && w < |s.threads| && s.threads[0].phase.Notifying?
    ensures Inv(batch, NotifyWorkers(s, w))
  {
    hide Core;
    var woken := if s.threads[0].phase.all then SignalWorkers(s.threads) else s.threads[w := Signal(s.threads[w])];
    NonEmpty(batch, s);
    SignalKeeps(batch, s, woken);
    MoveKeeps(batch, s.(threads := woken), 0, s.threads[0].(phase := Outside));
  }

  lemma NonEmpty<T, R>(batch: nat, s: State<T, R>)
    requires Core(batch, s)
    ensures s.threads != []
  {
  }

  // ----- running a check -----

  lemma RunCheckKeeps<T, R>(batch: nat, s: State<T, R>, t: nat, outcome: Option<R>)
    requires Inv(batch, s) && t < |s.threads| && s.threads[t].phase.Working? && !BatchOver(s.threads[t])
    ensures Inv(batch, RunCheck(s, t, outcome))
  {
    hide ThreadsOk, ResultOk, ChecksOk, Fits, VerdictsOk, Reported, Found, SomeFound;
    var th := RunCheck(s, t, outcome).threads[t];
    SumUpdate(s.threads, t, th, Held);
    SumUpdate(s.threads, t, th, Idle);
    SumUpdate(s.threads, t, th, Joined);
    RunMovesCheck(s, t, outcome);
    RunKeepsThreads(batch, s, t, outcome);
    ThreadFacts(batch, s, t);
    RunKeepsResult(s, t, outcome);
  }

  lemma ThreadFacts<T, R>(batch: nat, s: State<T, R>, t: nat)
    requires Core(batch, s) && t < |s.threads|
    ensures ThreadOk(batch, s.threads[t], s.shared.result, s.session.executed, s.session.failures)
  {
  }

  lemma RunMovesCheck<T, R>(s: State<T, R>, t: nat, outcome: Option<R>)
    requires t < |s.threads| && s.threads[t].phase.Working? && s.threads[t].phase.rest != []
    requires ChecksOk(s.shared.queue, s.threads, s.session)
    ensures var s' := RunCheck(s, t, outcome); ChecksOk(s'.shared.queue, s'.threads, s'.session)
  {
    hide Rests;
    var s' := RunCheck(s, t, outcome);
    var rest := s.threads[t].phase.rest;
    RestsUpdate(s.threads, t, s'.threads[t]);
    assert rest == [rest[0]] + rest[1..];
    TakeOut(Rests(s'.threads), Rests(s.threads), multiset(rest[1..]), multiset{rest[0]});
  }

  lemma TakeOut<T>(a: multiset<T>, b: multiset<T>, c: multiset<T>, d: multiset<T>)
    requires a + (d + c) == b + c
    ensures b == a + d
  {
    assert a + (d + c) == (a + d) + c;
    Cancel(b, a + d, c);
  }

  lemma ReportedGrows<T, R>(
    executed: multiset<T>, failures: set<Failure<T, R>>, more: multiset<T>, others: set<Failure<T, R>>, e: R)
    requires Reported(executed, failures, e)
    ensures Reported(executed + more, failures + others, e)
  {
    var f :| f in failures && f.error == e && f.check in executed;
    assert f in failures + others && f.check in executed + more;
  }

  lemma RunKeepsThreads<T, R>(batch: nat, s: State<T, R>, t: nat, outcome: Option<R>)
    requires t < |s.threads| && s.threads[t].phase.Working? && !BatchOver(s.threads[t])
    requires ThreadsOk(batch, s.threads, s.shared.result, s.session.executed, s.session.failures)
    ensures var s' := RunCheck(s, t, outcome);
            ThreadsOk(batch, s'.threads, s'.shared.result, s'.session.executed, s'.session.failures)
  {
    hide Reported;
    var s' := RunCheck(s, t, outcome);
    var c := s.threads[t].phase.rest[0];
    var extra := if outcome.Some? then {Failure(c, outcome.value)} else {};
    forall u | 0 <= u < |s'.threads|
      ensures ThreadOk(batch, s'.threads[u], s'.shared.result, s'.session.executed, s'.session.failures)
    {
      assert ThreadOk(batch, s.threads[u], s.shared.result, s.session.executed, s.session.failures);
      var local := s.threads[u].local;
      if local.Some? && Reported(s.session.executed, s.session.failures, local.value) {
        ReportedGrows(s.session.executed, s.session.failures, multiset{c}, extra, local.value);
      }
      if outcome.Some? { ReportNew(s.session.executed, s.session.failures, c, outcome.value); }
    }
  }

  lemma ReportNew<T, R>(executed: multiset<T>, failures: set<Failure<T, R>>, c: T, e: R)
    ensures Reported(executed + multiset{c}, failures + {Failure(c, e)}, e)
  {
    var f := Failure(c, e);
    assert f in failures + {f} && f.check in executed + multiset{c};
  }

  lemma RunKeepsResult<T, R>(s: State<T, R>, t: nat, outcome: Option<R>)
    requires t < |s.threads| && s.threads[t].phase.Working? && !BatchOver(s.threads[t])
    requires |s.threads[t].phase.rest| <= s.threads[t].phase.nNow
    requires ResultOk(s.threads, s.shared.result, s.session)
    ensures var s' := RunCheck(s, t, outcome); ResultOk(s'.threads, s'.shared.result, s'.session)
  {
    hide Reported, SomeFound;
    var s' := RunCheck(s, t, outcome);
    var c := s.threads[t].phase.rest[0];
    var extra := if outcome.Some? then {Failure(c, outcome.value)} else {};
    if s.shared.result.Some? {
      ReportedGrows(s.session.executed, s.session.failures, multiset{c}, extra, s.shared.result.value);
    }
    KeepFound(s.threads, t, s'.threads[t]);
    if outcome.Some? {
      FoundBy(s'.threads, t);
    } else {
      assert s'.session.failures == s.session.failures;
    }
  }

  lemma FoundBy<T, R>(ts: seq<Thread<T, R>>, t: nat)
    requires t < |ts| && Found(ts[t])
    ensures SomeFound(ts)
  {
  }

  // ----- the clean-up after a batch -----

  /** Settle without the notification of the master. */
  function Settled<T, R>(s: State<T, R>, t: nat): State<T, R>
    requires t < |s.threads| && s.threads[t].phase.Working?
  {
    var th := s.threads[t];
    var handsOver := th.local.Some? && s.shared.result.None?;
    SetThread(
      s.(shared := s.shared.(result := if handsOver then th.local else s.shared.result,
                             nTodo := (s.shared.nTodo - th.phase.nNow) % WORD),
         session := s.session.(skipped := s.session.skipped + multiset(th.phase.rest))),
      t, Thread(Deciding, if handsOver then None else th.local))
  }

  lemma SettleKeeps<T, R>(batch: nat, s: State<T, R>, t: nat)
    requires Inv(batch, s) && t < |s.threads| && s.threads[t].phase.Working? && BatchOver(s.threads[t])
    ensures Inv(batch, Settle(s, t))
  {
    hide Core, BatchOver;
    SettledKeeps(batch, s, t);
    SettledHeld(batch, s, t);
    var u := Settled(s, t);
    NonEmpty(batch, u);
    HeldNonNegative(batch, u);
    SignalKeeps(batch, u, u.threads[0 := Signal(u.threads[0])]);
  }

  lemma HeldNonNegative<T, R>(batch: nat, s: State<T, R>)
    requires Core(batch, s)
    ensures Sum(s.threads, Held) >= 0
  {
    hide ThreadsOk, ResultOk, ChecksOk, CountsOk, VerdictsOk, Fits;
    HeldBound(batch, s.threads, s.shared.result, s.session.executed, s.session.failures);
    SumBound(s.threads, Held, Max(1, batch));
  }

  lemma SettledHeld<T, R>(batch: nat, s: State<T, R>, t: nat)
    requires Core(batch, s) && t < |s.threads| && s.threads[t].phase.Working?
    ensures var u := Settled(s, t);
            && Sum(u.threads, Held) == Sum(s.threads, Held) - s.threads[t].phase.nNow
            && u.shared.nTodo == (|u.shared.queue| + Sum(u.threads, Held)) % WORD
  {
    hide ThreadsOk, ResultOk, ChecksOk, VerdictsOk, Fits;
    var done: int := s.threads[t].phase.nNow;
    SumUpdate(s.threads, t, Settled(s, t).threads[t], Held);
    ModAdd(|s.shared.queue| + Sum(s.threads, Held), -done, WORD);
  }

  lemma SettledKeeps<T, R>(batch: nat, s: State<T, R>, t: nat)
    requires Core(batch, s) && t < |s.threads| && s.threads[t].phase.Working? && BatchOver(s.threads[t])
    ensures Core(batch, Settled(s, t))
  {
    hide ThreadsOk, ResultOk, ChecksOk, VerdictsOk, Fits, BatchOver;
    var th := Settled(s, t).threads[t];
    SettledHeld(batch, s, t);
    SumUpdate(s.threads, t, th, Idle);
    SumUpdate(s.threads, t, th, Joined);
    ThreadFacts(batch, s, t);
    SettledChecks(s, t);
    SettledThreads(batch, s, t);
    SettledResult(batch, s, t);
  }

  lemma SettledChecks<T, R>(s: State<T, R>, t: nat)
    requires t < |s.threads| && s.threads[t].phase.Working? && ChecksOk(s.shared.queue, s.threads, s.session)
    ensures var u := Settled(s, t); ChecksOk(u.shared.queue, u.threads, u.session)
  {
    hide Rests;
    var u := Settled(s, t);
    RestsUpdate(s.threads, t, u.threads[t]);
    Regroup(multiset(s.shared.queue), Rests(s.threads), Rests(u.threads), multiset(s.threads[t].phase.rest),
      s.session.executed, s.session.skipped);
  }

  lemma Regroup<T>(
    queue: multiset<T>, held: multiset<T>, held': multiset<T>, rest: multiset<T>,
    executed: multiset<T>, skipped: multiset<T>)
    requires held' + rest == held + multiset{}
    ensures queue + held + executed + skipped == queue + held' + executed + (skipped + rest)
  {
    assert held == held' + rest;
  }

  lemma SettledThreads<T, R>(batch: nat, s: State<T, R>, t: nat)
    requires t < |s.threads| && s.threads[t].phase.Working?
    requires ThreadsOk(batch, s.threads, s.shared.result, s.session.executed, s.session.failures)
    ensures var u := Settled(s, t);
            ThreadsOk(batch, u.threads, u.shared.result, u.session.executed, u.session.failures)
  {
    hide Reported;
    var u := Settled(s, t);
    forall i | 0 <= i < |u.threads|
      ensures ThreadOk(batch, u.threads[i], u.shared.result, u.session.executed, u.session.failures)
    {
      assert ThreadOk(batch, s.threads[i], s.shared.result, s.session.executed, s.session.failures);
    }
  }

  /** The error handed over is of this session: with no error recorded, the thread has run a check of its batch. */
  lemma SettledResult<T, R>(batch: nat, s: State<T, R>, t: nat)
    requires t < |s.threads| && s.threads[t].phase.Working? && BatchOver(s.threads[t])
    requires ThreadOk(batch, s.threads[t], s.shared.result, s.session.executed, s.session.failures)
    requires ResultOk(s.threads, s.shared.result, s.session)
    ensures var u := Settled(s, t); ResultOk(u.threads, u.shared.result, u.session)
  {
    hide Reported, SomeFound;
    var u := Settled(s, t);
    if s.shared.result.None? && s.threads[t].local.None? {
      assert s.threads[t].phase.rest == [];
      assert u.session.skipped == s.session.skipped;
      KeepFound(s.threads, t, u.threads[t]);
    }
  }

  // ----- the decision -----

  lemma TakeKeeps<T, R>(batch: nat, s: State<T, R>, t: nat)
    requires Core(batch, s) && t < |s.threads| && s.threads[t].phase.Deciding? && s.shared.queue != []
    requires s.shared.nTotal + s.shared.nIdle + 1 > 0
    ensures Core(batch, Decide(batch, s, t))
  {
    hide ThreadsOk, ResultOk, ChecksOk, CountsOk, VerdictsOk, Fits, BatchSize;
    var s' := Decide(batch, s, t);
    var th := s'.threads[t];
    BatchBound(batch, s.shared);
    TakenCounts(s.shared, s.threads, t, th, |s'.shared.queue|);
    TakenThreads(batch, s, t);
    TakenChecks(s.shared.queue, |s'.shared.queue|, s.threads, s.session, t, th);
    KeepFound(s.threads, t, th);
    SameResult(s.threads, s'.threads, s.shared.result, s.session, s.session);
  }

  lemma TakenCounts<T, R>(sh: Shared<T, R>, ts: seq<Thread<T, R>>, t: nat, th: Thread<T, R>, keep: nat)
    requires CountsOk(sh, ts) && t < |ts| && ts[t].phase.Deciding? && keep <= |sh.queue|
    requires th.phase.Working? && th.phase.nNow == |sh.queue| - keep
    ensures CountsOk(sh.(queue := sh.queue[..keep]), ts[t := th])
  {
    hide Sum;
    SumUpdate(ts, t, th, Held);
    SumUpdate(ts, t, th, Idle);
    SumUpdate(ts, t, th, Joined);
  }

  lemma TakenThreads<T, R>(batch: nat, s: State<T, R>, t: nat)
    requires t < |s.threads| && s.shared.queue != [] && s.shared.nTotal + s.shared.nIdle + 1 > 0
    requires ThreadsOk(batch, s.threads, s.shared.result, s.session.executed, s.session.failures)
    ensures ThreadsOk(batch, Decide(batch, s, t).threads, s.shared.result, s.session.executed, s.session.failures)
  {
    hide Reported, BatchSize;
    BatchBound(batch, s.shared);
    var us := Decide(batch, s, t).threads;
    forall i | 0 <= i < |us| ensures ThreadOk(batch, us[i], s.shared.result, s.session.executed, s.session.failures) {
      assert ThreadOk(batch, s.threads[i], s.shared.result, s.session.executed, s.session.failures);
    }
  }

  lemma TakenChecks<T, R>(
    queue: seq<T>, keep: nat, ts: seq<Thread<T, R>>, ss: Session<T, R>, t: nat, th: Thread<T, R>)
    requires ChecksOk(queue, ts, ss) && keep <= |queue| && t < |ts| && !ts[t].phase.Working?
    requires th.phase.Working? && th.phase.rest == queue[keep..]
    ensures ChecksOk(queue[..keep], ts[t := th], ss)
  {
    hide Rests;
    RestsUpdate(ts, t, th);
    assert queue == queue[..keep] + queue[keep..];
    assert multiset(queue) == multiset(queue[..keep]) + multiset(queue[keep..]);
    TakeFrom(multiset(queue[..keep]), multiset(queue[keep..]), Rests(ts), Rests(ts[t := th]), ss.executed, ss.skipped);
  }

  lemma TakeFrom<T>(
    kept: multiset<T>, taken: multiset<T>, held: multiset<T>, held': multiset<T>,
    executed: multiset<T>, skipped: multiset<T>)
    requires held' + multiset{} == held + taken
    ensures kept + taken + held + executed + skipped == kept + held' + executed + skipped
  {
    assert held' == held + taken;
    assert kept + taken + held == kept + (held + taken);
  }

  /** When the master finds nothing queued and nothing outstanding, no thread holds a check. */
  lemma AllSettled<T, R>(batch: nat, s: State<T, R>)
    requires Core(batch, s) && s.shared.queue == [] && s.shared.nTodo == 0 && !s.threads[0].phase.Working?
    ensures forall i | 0 <= i < |s.threads| :: !s.threads[i].phase.Working?
  {
    hide ResultOk, ChecksOk, VerdictsOk, Fits, Reported;
    TodoExact(batch, s);
    HeldBound(batch, s.threads, s.shared.result, s.session.executed, s.session.failures);
    forall i | 0 <= i < |s.threads| ensures !s.threads[i].phase.Working? {
      SumTerm(s.threads, Held, i);
      assert ThreadOk(batch, s.threads[i], s.shared.result, s.session.executed, s.session.failures);
    }
  }

  /** The verdict is right for the session that ends with it. */
  lemma ReturnIsRight<T, R>(batch: nat, s: State<T, R>)
    requires Core(batch, s) && s.shared.queue == [] && s.shared.nTodo == 0 && !s.threads[0].phase.Working?
    ensures VerdictOk(Verdict(s.shared.result, s.session))
  {
    hide CountsOk, ThreadsOk, VerdictsOk, Fits;
    AllSettled(batch, s);
    RestsEmpty(s.threads);
    assert !SomeFound(s.threads);
    RightVerdict(s.threads, s.shared.result, s.session);
  }

  lemma RightVerdict<T, R>(ts: seq<Thread<T, R>>, result: Option<R>, ss: Session<T, R>)
    requires ss.added == multiset{} + multiset{} + ss.executed + ss.skipped
    requires ResultOk(ts, result, ss) && !SomeFound(ts)
    ensures VerdictOk(Verdict(result, ss))
  {
    if result.None? {
      assert ss.skipped == multiset{};
      assert ss.added == ss.executed;
    }
  }

  lemma ReturnKeeps<T, R>(batch: nat, s: State<T, R>)
    requires Core(batch, s) && s.shared.queue == [] && s.shared.nTodo == 0 && s.threads[0].phase.Deciding?
    requires s.shared.nTotal + s.shared.nIdle + 1 > 0
    ensures Core(batch, Decide(batch, s, 0))
  {
    hide ThreadsOk, ResultOk, ChecksOk, VerdictsOk, VerdictOk, Fits;
    var s' := Decide(batch, s, 0);
    AllSettled(batch, s);
    ReturnIsRight(batch, s);
    SumUpdate(s.threads, 0, s'.threads[0], Held);
    SumUpdate(s.threads, 0, s'.threads[0], Idle);
    SumUpdate(s.threads, 0, s'.threads[0], Joined);
    Clean(batch, s'.threads, s'.session);
    OneMore(s.verdicts, Verdict(s.shared.result, s.session));
  }

  lemma OneMore<T, R>(vs: seq<Verdict<T, R>>, v: Verdict<T, R>)
    requires VerdictsOk(vs) && VerdictOk(v)
    ensures VerdictsOk(vs + [v])
  {
    hide VerdictOk;
  }

  lemma Clean<T, R>(batch: nat, ts: seq<Thread<T, R>>, ss: Session<T, R>)
    requires ss == NewSession() && forall i | 0 <= i < |ts| :: !ts[i].phase.Working?
    ensures ChecksOk([], ts, ss) && ThreadsOk(batch, ts, None, ss.executed, ss.failures) && ResultOk(ts, None, ss)
  {
    RestsEmpty(ts);
  }

  lemma DecideKeeps<T, R>(batch: nat, s: State<T, R>, t: nat)
    requires Inv(batch, s) && t < |s.threads| && s.threads[t].phase.Deciding?
    requires s.shared.nTotal + s.shared.nIdle + 1 > 0
    ensures Inv(batch, Decide(batch, s, t))
  {
    hide Core;
    NonEmpty(batch, s);
    if s.shared.queue != [] {
      TakeKeeps(batch, s, t);
    } else if t == 0 && s.shared.nTodo == 0 {
      ReturnKeeps(batch, s);
    } else {
      MoveKeeps(batch, s, t, s.threads[t].(phase := Waiting(false)));
      if t == 0 { TodoExact(batch, s); TodoNonNegative(batch, s); }
    }
  }

  lemma TodoNonNegative<T, R>(batch: nat, s: State<T, R>)
    requires Core(batch, s)
    ensures s.shared.nTodo >= 0
  {
  }
}
