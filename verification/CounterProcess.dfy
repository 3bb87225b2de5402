/** The multi-threaded counter program: its shared variables, the statements its threads execute on them one
    at a time under an arbitrary scheduler, and its main function. `trace` is the run of MutexCounter that
    has been executed so far. */
module CounterProcess {
  import opened Runs
  import opened Sums
  import opened MutexCounter

  class Program {
    const jobs: seq<Job>
    var mutex: Owner
    var shareMemory: int
    var log: seq<Line>
    var threads: seq<Thread>
    var created: nat
    var joined: nat
    var exited: bool
    const openMayFail: bool
    ghost var opens: seq<int>     // what the open() calls have returned
    ghost var trace: seq<State>

    function Abs(): State
      reads this
    {
      State(mutex, shareMemory, log, threads, created, joined, exited)
    }

    ghost predicate Valid()
      reads this
    {
      && IsRun(NextRel(), trace) && trace[0] == Start(jobs) && Last(trace) == Abs()
      && OpensOk(exited)
    }

    /** No open() has failed, but for the last one of a process that has exited. */
    ghost predicate OpensOk(exited: bool)
      reads this
    {
      && (exited <==> opens != [] && opens[|opens| - 1] == -1)
      && forall i :: 0 <= i < |opens| - 1 ==> opens[i] != -1
    }

    constructor (jobs: seq<Job>, openMayFail: bool)
      ensures Valid() && this.jobs == jobs && this.openMayFail == openMayFail && opens == []
      ensures !exited && created == joined == 0
    {
      this.jobs, this.openMayFail, opens := jobs, openMayFail, [];
      mutex, shareMemory, log, created, joined, exited := Free, 0, [], 0, 0, false;
      threads := seq(|jobs|, i requires 0 <= i < |jobs| => Fresh(jobs[i]));
      trace := [Start(jobs)];
    }

    lemma Invariant()
      requires Valid()
      ensures Inv(jobs, Abs()) && Remaining(Abs()) >= 0
    {
      RunsKeepInv(jobs, trace, |trace| - 1);
      RemainingNonNegative(jobs, Abs());
    }

    ghost method Took(step: Step)
      requires IsRun(NextRel(), trace) && trace[0] == Start(jobs)
      requires Enabled(Last(trace), step) && Abs() == Apply(Last(trace), step) && OpensOk(exited)
      modifies this`trace
      ensures Valid()
    {
      assert Next(Last(trace), Abs());
      trace := ExtendRun(NextRel(), trace, Abs());
    }

    /** open() of the log file. */
    method OpenLog() returns (fd: int)
      modifies this`opens
      ensures opens == old(opens) + [fd] && fd >= -1
      ensures fd == -1 ==> openMayFail
    {
      var fails: bool := *;
      if openMayFail && fails {
        fd := -1;
      } else {
        fd :| fd >= 0;
      }
      opens := opens + [fd];
    }

    /** Thread t opens the log; the process exits exactly when that returns -1. */
    method Open(t: nat)
      requires Valid() && Enabled(Abs(), Run(t)) && threads[t].pc.Open?
      modifies this`threads, this`exited, this`opens, this`trace
      ensures Valid() && (exited ==> openMayFail)
      ensures |opens| == old(|opens|) + 1 && opens[..|opens| - 1] == old(opens)
      ensures Abs() == Apply(old(Abs()), if exited then OpenFails(t) else Run(t))
    {
      var th := threads[t];
      var fd := OpenLog();
      if fd == -1 {
        exited := true;
        Took(OpenFails(t));
      } else {
        threads := threads[t := th.(pc := Log)];
        Took(Run(t));
      }
    }

    /** Any other statement of thread t. */
    method Execute(t: nat)
      requires Valid() && Enabled(Abs(), Run(t)) && !threads[t].pc.Open?
      modifies this`mutex, this`shareMemory, this`log, this`threads, this`trace
      ensures Valid() && Abs() == Apply(old(Abs()), Run(t))
    {
      var th := threads[t];
      match th.pc {
        case Lock =>  // pthread_mutex_lock
          mutex := Held(t);
          threads := threads[t := th.(pc := Pc.Open)];
        case Log =>  // dprintf
          log := log + [Line(t, shareMemory)];
          threads := threads[t := th.(pc := Load)];
        case Load =>
          threads := threads[t := th.(pc := Store, reg := shareMemory)];
        case Store =>
          shareMemory := th.reg + th.job.inc;
          threads := threads[t := th.(pc := Unlock, stores := th.stores + 1)];
        case Unlock =>  // pthread_mutex_unlock, and the loop's i++
          mutex := Free;
          threads := threads[t := th.(pc := Lock, done := th.done + 1)];
      }
      Took(Run(t));
    }

    /** The next statement of thread t. The process exits exactly when that is an open() that returns -1. */
    method Advance(t: nat)
      requires Valid() && Enabled(Abs(), Run(t))
      modifies this
      ensures Valid() && (exited ==> openMayFail)
      ensures old(threads)[t].pc.Open? ==> |opens| == old(|opens|) + 1 && opens[..|opens| - 1] == old(opens)
      ensures !old(threads)[t].pc.Open? ==> opens == old(opens) && !exited
      ensures Abs() == Apply(old(Abs()), if exited then OpenFails(t) else Run(t))
      ensures Remaining(Abs()) < Remaining(old(Abs()))
    {
      if threads[t].pc.Open? {
        Open(t);
      } else {
        Execute(t);
      }
      StepLowersRemaining(old(Abs()), if exited then OpenFails(t) else Run(t));
    }

    /** One step while main creates: of a thread already created, or the next pthread_create. */
    method CreateStep()
      requires Valid() && !exited && created < |jobs| && joined == 0
      modifies this
      ensures Valid() && (exited ==> openMayFail) && created <= |jobs| && joined == 0
      ensures Remaining(Abs()) < Remaining(old(Abs()))
    {
      Invariant();
      var t: nat := *;
      if Enabled(Abs(), Run(t)) {
        Advance(t);
      } else {
        StepLowersRemaining(Abs(), Create);
        created := created + 1;
        Took(Create);
      }
    }

    /** main's pthread_create calls. */
    method CreateAll()
      requires Valid() && !exited && created == joined == 0
      modifies this
      ensures Valid() && (exited ==> openMayFail)
      ensures !exited ==> created == |jobs| && joined == 0
    {
      while created < |jobs|
        invariant Valid() && !exited && created <= |jobs| && joined == 0
        decreases Remaining(Abs())
      {
        CreateStep();
        if exited {
          return;
        }
        Invariant();
      }
    }

    /** One step while main joins: pthread_join if its thread has finished, or a step of some thread. */
    method JoinStep()
      requires Valid() && !exited && created == |jobs| && joined < |jobs|
      modifies this
      ensures Valid() && (exited ==> openMayFail) && created == |jobs| && joined <= |jobs|
      ensures Remaining(Abs()) < Remaining(old(Abs()))
    {
      Invariant();
      if Finished(threads[joined]) {
        StepLowersRemaining(Abs(), Join);
        joined := joined + 1;
        Took(Join);
      } else {
        ghost var some := SomeStepEnabled(jobs, Abs());
        var t: nat :| t < |threads| && Enabled(Abs(), Run(t));
        Advance(t);
      }
    }

    /** main's pthread_join calls, one thread after the other. */
    method JoinAll()
      requires Valid() && !exited && created == |jobs| && joined == 0
      modifies this
      ensures Valid() && (exited ==> openMayFail)
      ensures !exited ==> joined == |jobs|
    {
      while joined < |jobs|
        invariant Valid() && !exited && created == |jobs| && joined <= |jobs|
        decreases Remaining(Abs())
      {
        JoinStep();
        if exited {
          return;
        }
        Invariant();
      }
    }

    /** main: create every thread, then join each in turn. However the threads are scheduled this returns,
        with the counter and the log complete unless an open() returned -1. */
    method CreateAndJoin()
      requires Valid() && !exited && created == joined == 0
      modifies this
      ensures Valid()
      ensures exited <==> opens != [] && opens[|opens| - 1] == -1
      ensures forall i :: 0 <= i < |opens| - 1 ==> opens[i] != -1
      ensures !openMayFail ==> !exited
      ensures !exited ==> shareMemory == SumOf(Total(), jobs) && |log| == SumOf(Quota(), jobs)
      ensures !exited && jobs == TWO_THREADS ==> shareMemory == 200 && |log| == 110
    {
      CreateAll();
      if exited {
        return;
      }
      JoinAll();
      if exited {
        return;
      }
      FinalValue(jobs, trace);
      if jobs == TWO_THREADS {
        TwoThreadsFinalValue(trace);
      }
    }
  }
}
