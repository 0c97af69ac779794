/** The code of the check queue: the body of each critical section, and the loop that runs a batch. */
module CheckQueueImpl {
  import opened CheckQueue
  import opened Prelude

  /** How a critical section ends: Loop returns, the thread waits, or it leaves with a batch. */
  datatype Exit<T, R> = Return(verdict: Option<R>) | Wait | Batch(nNow: nat, checks: seq<T>, doWork: bool)

  function PhaseAfter<T, R>(exit: Exit<T, R>): Phase<T> {
    match exit
    case Return(_) => Outside
    case Wait => Waiting(false)
    case Batch(nNow, checks, doWork) => Working(nNow, checks, doWork)
  }

  class CCheckQueue<T(==), R(==)> {
    const nBatchSize: nat
    var queue: seq<T>
    var nIdle: int
    var nTotal: int
    var result: Option<R>
    var nTodo: int

    constructor (batchSize: nat)
      ensures Abs() == Initial<T, R>(0).shared && nBatchSize == batchSize
    {
      nBatchSize := batchSize;
      queue, nIdle, nTotal, result, nTodo := [], 0, 0, None, 0;
    }

    function Abs(): Shared<T, R>
      reads this
    {
      Shared(queue, nIdle, nTotal, result, nTodo)
    }

    /** The locked half of Add; `all` says which notification the unlocked half sends, if any. */
    method Add(checks: seq<T>, ghost s: State<T, R>) returns (notify: bool, all: bool)
      requires s.shared == Abs() && |s.threads| > 0
      modifies this
      ensures notify == (checks != [])
      ensures Abs() == if notify then Push(s, checks).shared else old(Abs())
      ensures notify ==> Push(s, checks).threads[0].phase == Notifying(all)
    {
      notify, all := checks != [], |checks| != 1;
      if !notify { return; }
      queue := queue + checks;
      nTodo := (nTodo + |checks|) % WORD;
    }

    /** The clean-up after a batch; `wakeMaster` says whether the master is notified. */
    method CleanUp(fMaster: bool, nNow: nat, localResult: Option<R>, ghost s: State<T, R>, ghost t: nat)
      returns (local: Option<R>, wakeMaster: bool)
      requires s.shared == Abs() && t < |s.threads| && fMaster == (t == 0)
      requires s.threads[t].phase.Working? && s.threads[t].phase.nNow == nNow && s.threads[t].local == localResult
      modifies this
      ensures Abs() == Settle(s, t).shared && local == Settle(s, t).threads[t].local
      ensures wakeMaster <==> !fMaster && Settle(s, t).shared.nTodo == 0
      ensures !fMaster ==> Settle(s, t).threads[0] == if wakeMaster then Signal(s.threads[0]) else s.threads[0]
    {
      local := localResult;
      if local.Some? && result.None? {
        result, local := local, result;
      }
      nTodo := (nTodo - nNow) % WORD;
      wakeMaster := nTodo == 0 && !fMaster;
    }

    /** The inner loop, up to the next wait. */
    method Choose(fMaster: bool, ghost s: State<T, R>, ghost t: nat) returns (exit: Exit<T, R>)
      requires s.shared == Abs() && t < |s.threads| && fMaster == (t == 0) && nTotal + nIdle + 1 > 0
      modifies this
      ensures Abs() == Decide(nBatchSize, s, t).shared
      ensures Decide(nBatchSize, s, t).threads[t].phase == PhaseAfter(exit)
      ensures Decide(nBatchSize, s, t).verdicts ==
              if exit.Return? then s.verdicts + [Verdict(exit.verdict, s.session)] else s.verdicts
    {
      if queue == [] {
        if fMaster && nTodo == 0 {
          nTotal := nTotal - 1;
          exit := Return(result);
          result := None;
          return;
        }
        nIdle := nIdle + 1;
        return Wait;
      }
      BatchBound(nBatchSize, Abs());
      var nNow := Max(1, Min(nBatchSize, (|queue| % WORD) / (nTotal + nIdle + 1)));
      var start := |queue| - nNow;
      exit := Batch(nNow, queue[start..], result.None?);
      queue := queue[..start];
    }

    /** The critical section between two batches is one Finish step. */
    method BetweenBatches(fMaster: bool, nNow: nat, localResult: Option<R>, ghost s: State<T, R>, ghost t: nat)
      returns (local: Option<R>, wakeMaster: bool, exit: Exit<T, R>)
      requires s.shared == Abs() && Enabled(s, Finish(t)) && fMaster == (t == 0) && nTotal >= 0 && nIdle >= 0
      requires s.threads[t].phase.nNow == nNow && s.threads[t].local == localResult
      modifies this
      ensures var s' := Next(nBatchSize, s, Finish(t));
              && Abs() == s'.shared && s'.threads[t] == Thread(PhaseAfter(exit), local)
              && s'.verdicts == (if exit.Return?
                                 then s.verdicts + [Verdict(exit.verdict, Settle(s, t).session)] else s.verdicts)
              && (wakeMaster <==> !fMaster && Settle(s, t).shared.nTodo == 0)
              && (!fMaster ==> s'.threads[0] == if wakeMaster then Signal(s.threads[0]) else s.threads[0])
    {
      local, wakeMaster := CleanUp(fMaster, nNow, localResult, s, t);
      exit := Choose(fMaster, Settle(s, t), t);
    }

    /** The first critical section of Loop is one Enter step. */
    method FirstSection(fMaster: bool, ghost s: State<T, R>, ghost t: nat) returns (exit: Exit<T, R>)
      requires s.shared == Abs() && Enabled(s, Enter(t)) && fMaster == (t == 0) && nTotal >= 0 && nIdle >= 0
      modifies this
      ensures var s' := Next(nBatchSize, s, Enter(t));
              && Abs() == s'.shared && s'.threads[t] == Thread(PhaseAfter(exit), None)
              && s'.verdicts == if exit.Return? then s.verdicts + [Verdict(exit.verdict, s.session)] else s.verdicts
    {
      nTotal := nTotal + 1;
      exit := Choose(fMaster, Join(s, t), t);
    }

    /** What follows a wait is one Wake step. */
    method AfterWait(fMaster: bool, ghost s: State<T, R>, ghost t: nat) returns (exit: Exit<T, R>)
      requires s.shared == Abs() && Enabled(s, Wake(t)) && fMaster == (t == 0) && nTotal >= 0 && nIdle > 0
      modifies this
      ensures var s' := Next(nBatchSize, s, Wake(t));
              && Abs() == s'.shared && s'.threads[t].phase == PhaseAfter(exit)
              && s'.verdicts == if exit.Return? then s.verdicts + [Verdict(exit.verdict, s.session)] else s.verdicts
    {
      nIdle := nIdle - 1;
      exit := Choose(fMaster, Rouse(s, t), t);
    }
  }

  /** Thread t after running the first n checks of its batch, `run` giving their outcomes. */
  function AfterChecks<T, R>(s: State<T, R>, t: nat, run: T -> Option<R>, n: nat): (u: State<T, R>)
    requires t < |s.threads| && s.threads[t].phase.Working? && n <= |s.threads[t].phase.rest|
    ensures |u.threads| == |s.threads|
    ensures u.threads[t].phase == s.threads[t].phase.(rest := s.threads[t].phase.rest[n..])
    decreases n
  {
    if n == 0 then s
    else
      var u := AfterChecks(s, t, run, n - 1);
      RunCheck(u, t, run(u.threads[t].phase.rest[0]))
  }

  /** What the thread sees of it: the outcome of the last check that ran. */
  lemma LocalAfter<T, R>(s: State<T, R>, t: nat, run: T -> Option<R>, n: nat)
    requires t < |s.threads| && s.threads[t].phase.Working? && n <= |s.threads[t].phase.rest|
    ensures AfterChecks(s, t, run, n).threads[t].local ==
            if n == 0 then s.threads[t].local else run(s.threads[t].phase.rest[n - 1])
  {
  }

  /** Running a batch is a sequence of Execute steps that ends where the batch is over, and none runs after that. */
  method RunBatch<T(==), R(==)>(checks: seq<T>, nNow: nat, doWork: bool, localResult: Option<R>, run: T -> Option<R>,
                                ghost s: State<T, R>, ghost t: nat)
    returns (local: Option<R>, ghost n: nat)
    requires t < |s.threads| && |checks| == nNow && s.threads[t] == Thread(Working(nNow, checks, doWork), localResult)
    ensures n <= |checks|
    ensures AfterChecks(s, t, run, n).threads[t].local == local
    ensures BatchOver(AfterChecks(s, t, run, n).threads[t])
    ensures forall k | 0 <= k < n :: !BatchOver(AfterChecks(s, t, run, k).threads[t])
  {
    hide AfterChecks;
    local, n := localResult, 0;
    if doWork {
      var i := 0;
      while i < |checks|
        invariant 0 <= i <= |checks| && n == i
        invariant local == (if i == 0 then localResult else run(checks[i - 1]))
        invariant forall k | 0 <= k < i :: run(checks[k]).None?
      {
        local := run(checks[i]);
        i, n := i + 1, n + 1;
        if local.Some? { break; }
      }
    }
    LocalAfter(s, t, run, n);
    forall k | 0 <= k < n ensures !BatchOver(AfterChecks(s, t, run, k).threads[t]) { LocalAfter(s, t, run, k); }
  }
}
