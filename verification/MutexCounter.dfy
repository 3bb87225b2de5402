/** Threads that log and then add to one shared counter, each iteration inside one mutex. The addition is
    a load and a store. Any number of threads, each with its own quota and increment. */
module MutexCounter {
  import opened Runs
  import opened Sums

  /** What a thread is created to do: `quota` iterations, each adding `inc`. */
  datatype Job = Job(quota: nat, inc: int)

  /** The next statement of a thread: lock, open the log, write to it, load share_memory, store it, unlock. */
  datatype Pc = Lock | Open | Log | Load | Store | Unlock

  /** `done` is the loop counter, `reg` the loaded value, `stores` the additions completed so far. */
  datatype Thread = Thread(job: Job, pc: Pc, done: nat, reg: int, stores: nat)

  datatype Owner = Free | Held(t: nat)

  datatype Line = Line(t: nat, value: int)

  /** `created` and `joined` count main's pthread_create and pthread_join calls; `exited` is a failed open. */
  datatype State = State(mutex: Owner, shared: int, log: seq<Line>, threads: seq<Thread>,
                         created: nat, joined: nat, exited: bool)

  function Fresh(job: Job): Thread { Thread(job, Lock, 0, 0, 0) }

  function Start(jobs: seq<Job>): State
  {
    State(Free, 0, [], seq(|jobs|, i requires 0 <= i < |jobs| => Fresh(jobs[i])), 0, 0, false)
  }

  datatype Step = Create | Join | Run(t: nat) | OpenFails(t: nat)

  predicate Finished(th: Thread) { th.pc.Lock? && th.done >= th.job.quota }

  predicate Enabled(s: State, step: Step)
  {
    && !s.exited
    && match step
       case Create => s.created < |s.threads|
       case Join => s.created == |s.threads| && s.joined < |s.threads| && Finished(s.threads[s.joined])
       case OpenFails(t) => t < s.created <= |s.threads| && s.threads[t].pc.Open?
       case Run(t) =>
         && t < s.created <= |s.threads|
         && (s.threads[t].pc.Lock? ==> s.mutex.Free? && !Finished(s.threads[t]))
  }

  function RunThread(s: State, t: nat): State
    requires t < |s.threads|
  {
    var th := s.threads[t];
    match th.pc
    case Lock => s.(mutex := Held(t), threads := s.threads[t := th.(pc := Open)])
    case Open => s.(threads := s.threads[t := th.(pc := Log)])
    case Log => s.(log := s.log + [Line(t, s.shared)], threads := s.threads[t := th.(pc := Load)])
    case Load => s.(threads := s.threads[t := th.(pc := Store, reg := s.shared)])
    case Store =>
      s.(shared := th.reg + th.job.inc, threads := s.threads[t := th.(pc := Unlock, stores := th.stores + 1)])
    case Unlock => s.(mutex := Free, threads := s.threads[t := th.(pc := Lock, done := th.done + 1)])
  }

  function Apply(s: State, step: Step): State
    requires Enabled(s, step)
  {
    match step
    case Create => s.(created := s.created + 1)
    case Join => s.(joined := s.joined + 1)
    case OpenFails(_) => s.(exited := true)
    case Run(t) => RunThread(s, t)
  }

  ghost predicate Next(s: State, s': State)
  {
    exists step :: Enabled(s, step) && s' == Apply(s, step)
  }

  ghost function NextRel(): (State, State) -> bool { (s, s') => Next(s, s') }

  // ---- the invariant

  predicate InCritical(th: Thread) { !th.pc.Lock? }

  function Work(): Thread -> int { (th: Thread) => th.job.inc * th.stores }

  function LinesOf(th: Thread): nat
  {
    th.done + if th.pc.Load? || th.pc.Store? || th.pc.Unlock? then 1 else 0
  }

  function Lines(): Thread -> int { (th: Thread) => LinesOf(th) }

  ghost predicate ThreadInv(s: State, t: nat)
    requires t < |s.threads|
  {
    var th := s.threads[t];
    && (InCritical(th) <==> s.mutex == Held(t))
    && th.stores == th.done + (if th.pc.Unlock? then 1 else 0)
    && th.done <= th.job.quota && (InCritical(th) ==> th.done < th.job.quota)
    && (th.pc.Store? ==> th.reg == s.shared)
    && (t >= s.created ==> th == Fresh(th.job))
  }

  /** The thread that has logged but not yet stored, if there is one. */
  ghost predicate Pending(s: State)
  {
    s.mutex.Held? && s.mutex.t < |s.threads| && (s.threads[s.mutex.t].pc.Load? || s.threads[s.mutex.t].pc.Store?)
  }

  ghost predicate LogInv(s: State)
  {
    && (forall k :: 0 <= k < |s.log| ==> s.log[k].t < |s.threads|)
    && (s.log != [] ==> s.log[0].value == 0)
    && (forall k :: 0 < k < |s.log| ==> s.log[k].value == s.log[k - 1].value + s.threads[s.log[k - 1].t].job.inc)
    && (if s.log == [] then s.shared == 0 && !Pending(s)
        else
          var last := s.log[|s.log| - 1];
          if Pending(s) then last == Line(s.mutex.t, s.shared)
          else s.shared == last.value + s.threads[last.t].job.inc)
  }

  ghost predicate Shape(jobs: seq<Job>, s: State)
  {
    && |s.threads| == |jobs| && (forall t :: 0 <= t < |jobs| ==> s.threads[t].job == jobs[t])
    && s.created <= |jobs| && s.joined <= s.created && (s.joined > 0 ==> s.created == |jobs|)
    && (s.mutex.Held? ==> s.mutex.t < |s.threads|)
    && (forall t :: 0 <= t < s.joined ==> Finished(s.threads[t]))
  }

  ghost predicate SumInv(s: State)
  {
    s.shared == SumOf(Work(), s.threads) && |s.log| == SumOf(Lines(), s.threads)
  }

  ghost predicate Inv(jobs: seq<Job>, s: State)
  {
    && Shape(jobs, s)
    && (forall t :: 0 <= t < |s.threads| ==> ThreadInv(s, t))
    && LogInv(s)
    && SumInv(s)
  }

  ghost function InvFn(jobs: seq<Job>): State -> bool { s => Inv(jobs, s) }

  lemma {:induction false} FreshSums(ths: seq<Thread>)
    requires forall t :: 0 <= t < |ths| ==> ths[t] == Fresh(ths[t].job)
    ensures SumOf(Work(), ths) == 0 && SumOf(Lines(), ths) == 0
  {
    if ths == [] {
    } else {
      FreshSums(ths[1..]);
    }
  }

  lemma StartInv(jobs: seq<Job>)
    ensures Inv(jobs, Start(jobs))
  {
    FreshSums(Start(jobs).threads);
  }

  lemma RunWork(s: State, t: nat)
    requires t < |s.threads|
    ensures var (th, ths') := (s.threads[t], RunThread(s, t).threads);
            SumOf(Work(), ths') == SumOf(Work(), s.threads) + if th.pc.Store? then th.job.inc else 0
  {
    SumUpdate(Work(), s.threads, t, RunThread(s, t).threads[t]);
  }

  lemma RunLines(s: State, t: nat)
    requires t < |s.threads|
    ensures var (th, ths') := (s.threads[t], RunThread(s, t).threads);
            SumOf(Lines(), ths') == SumOf(Lines(), s.threads) - LinesOf(th) + LinesOf(ths'[t])
  {
    SumUpdate(Lines(), s.threads, t, RunThread(s, t).threads[t]);
  }

  lemma RunKeepsSums(s: State, t: nat)
    requires t < |s.threads| && ThreadInv(s, t) && SumInv(s)
    ensures SumInv(RunThread(s, t))
  {
    RunWork(s, t);
    RunLines(s, t);
  }

  lemma RunKeepsShape(jobs: seq<Job>, s: State, t: nat)
    requires Shape(jobs, s) && Enabled(s, Run(t)) && ThreadInv(s, t)
    ensures Shape(jobs, RunThread(s, t))
  {
  }

  lemma LogKeepsLog(s: State, t: nat)
    requires LogInv(s) && t < |s.threads| && ThreadInv(s, t) && s.threads[t].pc.Log?
    ensures LogInv(RunThread(s, t))
  {
    var s' := RunThread(s, t);
    assert !Pending(s);
    assert forall u :: 0 <= u < |s.threads| ==> s'.threads[u].job == s.threads[u].job;
    assert forall k :: 0 <= k < |s.log| ==> s'.log[k] == s.log[k];
  }

  lemma StoreKeepsLog(s: State, t: nat)
    requires LogInv(s) && t < |s.threads| && ThreadInv(s, t) && s.threads[t].pc.Store?
    ensures LogInv(RunThread(s, t))
  {
    var s' := RunThread(s, t);
    assert Pending(s) && !Pending(s');
    assert forall u :: 0 <= u < |s.threads| ==> s'.threads[u].job == s.threads[u].job;
  }

  lemma OthersKeepLog(s: State, t: nat)
    requires LogInv(s) && t < |s.threads| && ThreadInv(s, t) && !s.threads[t].pc.Log? && !s.threads[t].pc.Store?
    requires s.threads[t].pc.Lock? ==> s.mutex.Free?
    ensures LogInv(RunThread(s, t))
  {
    var s' := RunThread(s, t);
    assert Pending(s) <==> Pending(s');
    assert forall u :: 0 <= u < |s.threads| ==> s'.threads[u].job == s.threads[u].job;
  }

  lemma RunKeepsLog(s: State, t: nat)
    requires LogInv(s) && t < |s.threads| && ThreadInv(s, t) && Enabled(s, Run(t))
    ensures LogInv(RunThread(s, t))
  {
    match s.threads[t].pc
    case Log => LogKeepsLog(s, t);
    case Store => StoreKeepsLog(s, t);
    case _ => OthersKeepLog(s, t);
  }

  lemma RunKeepsThreads(s: State, t: nat)
    requires t < |s.threads| && Enabled(s, Run(t))
    requires forall u :: 0 <= u < |s.threads| ==> ThreadInv(s, u)
    ensures forall u :: 0 <= u < |s.threads| ==> ThreadInv(RunThread(s, t), u)
  {
    assert ThreadInv(s, t);
    forall u | 0 <= u < |s.threads| ensures ThreadInv(RunThread(s, t), u) {
      assert ThreadInv(s, u);
    }
  }

  lemma MainKeepsThreads(jobs: seq<Job>, s: State, step: Step)
    requires Enabled(s, step) && !step.Run?
    requires forall t :: 0 <= t < |s.threads| ==> ThreadInv(s, t)
    ensures forall t :: 0 <= t < |s.threads| ==> ThreadInv(Apply(s, step), t)
  {
    forall t | 0 <= t < |s.threads| ensures ThreadInv(Apply(s, step), t) {
      assert ThreadInv(s, t);
    }
  }

  lemma MainKeepsLog(s: State, step: Step)
    requires Enabled(s, step) && !step.Run? && LogInv(s)
    ensures LogInv(Apply(s, step))
  {
    assert Pending(s) <==> Pending(Apply(s, step));
  }

  lemma MainKeepsShape(jobs: seq<Job>, s: State, step: Step)
    requires Enabled(s, step) && !step.Run? && Shape(jobs, s)
    ensures Shape(jobs, Apply(s, step))
  {
  }

  lemma StepKeepsInv(jobs: seq<Job>, s: State, step: Step)
    requires Inv(jobs, s) && Enabled(s, step)
    ensures Inv(jobs, Apply(s, step))
  {
    match step
    case Run(t) =>
      assert ThreadInv(s, t);
      RunKeepsShape(jobs, s, t);
      RunKeepsThreads(s, t);
      RunKeepsLog(s, t);
      RunKeepsSums(s, t);
    case _ =>
      MainKeepsShape(jobs, s, step);
      MainKeepsThreads(jobs, s, step);
      MainKeepsLog(s, step);
  }

  lemma RunsKeepInv(jobs: seq<Job>, run: seq<State>, k: nat)
    requires IsRun(NextRel(), run) && run[0] == Start(jobs) && k < |run|
    ensures Inv(jobs, run[k])
  {
    forall s, s' | InvFn(jobs)(s) && NextRel()(s, s') ensures InvFn(jobs)(s') {
      var step :| Enabled(s, step) && s' == Apply(s, step);
      StepKeepsInv(jobs, s, step);
    }
    StartInv(jobs);
    InvariantHolds(NextRel(), InvFn(jobs), run, k);
  }

  // ---- what the mutex buys

  /** At most one thread is between lock and unlock, and no addition is ever lost: the counter is the sum
      of all completed ones. */
  lemma NoLostUpdate(jobs: seq<Job>, run: seq<State>, k: nat)
    requires IsRun(NextRel(), run) && run[0] == Start(jobs) && k < |run|
    ensures var s := run[k];
            && (forall t, u :: 0 <= t < u < |s.threads| ==> !(InCritical(s.threads[t]) && InCritical(s.threads[u])))
            && s.shared == SumOf(Work(), s.threads)
  {
    RunsKeepInv(jobs, run, k);
    var s := run[k];
    forall t, u | 0 <= t < u < |s.threads| ensures !(InCritical(s.threads[t]) && InCritical(s.threads[u])) {
      assert ThreadInv(s, t) && ThreadInv(s, u);
    }
  }

  /** The log starts at 0 and each line is the one before plus the increment of the thread that logged that. */
  lemma LogIsLinear(jobs: seq<Job>, run: seq<State>, k: nat)
    requires IsRun(NextRel(), run) && run[0] == Start(jobs) && k < |run|
    ensures var log := run[k].log;
            && (forall i :: 0 <= i < |log| ==> log[i].t < |jobs|)
            && (log != [] ==> log[0].value == 0)
            && (forall i :: 0 < i < |log| ==> log[i].value == log[i - 1].value + jobs[log[i - 1].t].inc)
  {
    RunsKeepInv(jobs, run, k);
  }

  /** With positive increments the logged values strictly increase. */
  lemma {:induction false} LogIncreases(jobs: seq<Job>, run: seq<State>, k: nat, i: nat, j: nat)
    requires IsRun(NextRel(), run) && run[0] == Start(jobs) && k < |run|
    requires forall t :: 0 <= t < |jobs| ==> jobs[t].inc > 0
    requires i < j < |run[k].log|
    ensures run[k].log[i].value < run[k].log[j].value
    decreases j
  {
    LogIsLinear(jobs, run, k);
    if i == j - 1 {
    } else {
      LogIncreases(jobs, run, k, i, j - 1);
    }
  }

  function Total(): Job -> int { (j: Job) => j.inc * j.quota }
  function Quota(): Job -> int { (j: Job) => j.quota }

  /** After all joins: one line per iteration, and the counter is what every iteration of every thread adds up to. */
  lemma {:induction false} FinalValue(jobs: seq<Job>, run: seq<State>)
    requires IsRun(NextRel(), run) && run[0] == Start(jobs) && Last(run).joined == |jobs|
    ensures Last(run).shared == SumOf(Total(), jobs) && |Last(run).log| == SumOf(Quota(), jobs)
  {
    RunsKeepInv(jobs, run, |run| - 1);
    var s := Last(run);
    forall t | 0 <= t < |jobs| ensures s.threads[t].stores == jobs[t].quota && LinesOf(s.threads[t]) == jobs[t].quota {
      assert ThreadInv(s, t);
    }
    SumsAgree(Work(), s.threads, Total(), jobs);
    SumsAgree(Lines(), s.threads, Quota(), jobs);
  }

  // ---- termination

  function Rank(pc: Pc): nat
  {
    match pc
    case Lock => 0 case Open => 1 case Log => 2 case Load => 3 case Store => 4 case Unlock => 5
  }

  function Left(): Thread -> int { (th: Thread) => 6 * (th.job.quota - th.done) - Rank(th.pc) }

  function Remaining(s: State): int
  {
    SumOf(Left(), s.threads) + (|s.threads| - s.created) + (|s.threads| - s.joined) + (if s.exited then 0 else 1)
  }

  lemma {:induction false} LeftNonNegative(ths: seq<Thread>)
    requires forall t :: 0 <= t < |ths| ==>
               ths[t].done <= ths[t].job.quota && (InCritical(ths[t]) ==> ths[t].done < ths[t].job.quota)
    ensures SumOf(Left(), ths) >= 0
  {
    if ths == [] {
    } else {
      LeftNonNegative(ths[1..]);
    }
  }

  lemma RemainingNonNegative(jobs: seq<Job>, s: State)
    requires Inv(jobs, s)
    ensures Remaining(s) >= 0
  {
    forall t | 0 <= t < |s.threads|
      ensures s.threads[t].done <= s.threads[t].job.quota
      ensures InCritical(s.threads[t]) ==> s.threads[t].done < s.threads[t].job.quota
    {
      assert ThreadInv(s, t);
    }
    LeftNonNegative(s.threads);
  }

  lemma StepLowersRemaining(s: State, step: Step)
    requires Enabled(s, step)
    ensures Remaining(Apply(s, step)) < Remaining(s)
  {
    if step.Run? {
      SumUpdate(Left(), s.threads, step.t, RunThread(s, step.t).threads[step.t]);
    }
  }

  /** There is no deadlock: until all joins are done or an open has failed, some thread or main can move. */
  lemma SomeStepEnabled(jobs: seq<Job>, s: State) returns (step: Step)
    requires Inv(jobs, s) && !s.exited && s.joined < |jobs|
    ensures Enabled(s, step) && !step.OpenFails?
  {
    if s.created < |jobs| {
      step := Create;
    } else if Finished(s.threads[s.joined]) {
      step := Join;
    } else if s.mutex.Held? {
      assert ThreadInv(s, s.mutex.t);
      step := Run(s.mutex.t);
    } else {
      assert ThreadInv(s, s.joined);
      step := Run(s.joined);
    }
  }

  /** Every run is bounded, and one that can go no further has joined every thread unless an open failed. */
  lemma AllThreadsJoin(jobs: seq<Job>, run: seq<State>)
    requires IsRun(NextRel(), run) && run[0] == Start(jobs)
    ensures |run| - 1 <= Remaining(run[0])
    ensures (forall step :: !Enabled(Last(run), step)) && !Last(run).exited ==> Last(run).joined == |jobs|
  {
    forall s, s' | InvFn(jobs)(s) && NextRel()(s, s') ensures InvFn(jobs)(s') && Remaining(s') < Remaining(s) {
      var step :| Enabled(s, step) && s' == Apply(s, step);
      StepKeepsInv(jobs, s, step);
      StepLowersRemaining(s, step);
    }
    StartInv(jobs);
    MeasureBoundsRun(NextRel(), InvFn(jobs), s => Remaining(s), run);
    RunsKeepInv(jobs, run, |run| - 1);
    RemainingNonNegative(jobs, Last(run));
    if !Last(run).exited && Last(run).joined < |jobs| {
      var step := SomeStepEnabled(jobs, Last(run));
    }
  }

  // ---- the two threads of the program

  const MAX_NUM := 100
  const PLUS_NUM := 10

  const TWO_THREADS: seq<Job> := [Job(MAX_NUM, 1), Job(10, PLUS_NUM)]

  /** The program itself: after both joins share_memory is MAX_NUM + 10 * PLUS_NUM,
      and the log has MAX_NUM + 10 lines. */
  lemma TwoThreadsFinalValue(run: seq<State>)
    requires IsRun(NextRel(), run) && run[0] == Start(TWO_THREADS) && Last(run).joined == 2
    ensures Last(run).shared == MAX_NUM + 10 * PLUS_NUM
    ensures |Last(run).log| == MAX_NUM + 10
  {
    FinalValue(TWO_THREADS, run);
    assert TWO_THREADS[1..] == [Job(10, PLUS_NUM)];
    assert SumOf(Total(), TWO_THREADS[1..]) == 10 * PLUS_NUM;
    assert SumOf(Quota(), TWO_THREADS[1..]) == 10;
  }
}
