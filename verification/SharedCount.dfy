/** The unnamed POSIX semaphore and the counter its holders increment without a lock: `count += 1` is a load
    and a store, and any processes interleave. */
module SharedCount {
  import opened Runs
  import opened Sums

  const SEM_NUM := 5

  /** The next step of posix_unnamed_get: sem_wait, store the pid, load count, store count. Process p has pid p + 1. */
  datatype Pc = Wait | SetPid | Load | Store | Done

  /** `reg` is the loaded value; `seen` is how many stores had been made at that load. */
  datatype Process = Process(pc: Pc, reg: int, seen: nat)

  /** `granted` gets have passed sem_wait, `puts` have posted, `stores` have written count; `serial` says that
      so far no store fell between another process's load and its store. */
  datatype State = State(sem: nat, pid: nat, count: int, procs: seq<Process>,
                         granted: nat, puts: nat, stores: nat, serial: bool)

  function Start(procs: nat, count: int): State
  {
    State(SEM_NUM, 0, count, seq(procs, _ => Process(Wait, 0, 0)), 0, 0, 0, true)
  }

  datatype Step = Put | Run(p: nat)

  predicate Enabled(s: State, step: Step)
  {
    match step
    case Put => true
    case Run(p) => p < |s.procs| && !s.procs[p].pc.Done? && (s.procs[p].pc.Wait? ==> s.sem > 0)
  }

  function Apply(s: State, step: Step): State
    requires Enabled(s, step)
  {
    match step
    case Put => s.(sem := s.sem + 1, puts := s.puts + 1)
    case Run(p) =>
      var q := s.procs[p];
      match q.pc
      case Wait => s.(sem := s.sem - 1, granted := s.granted + 1, procs := s.procs[p := q.(pc := SetPid)])
      case SetPid => s.(pid := p + 1, procs := s.procs[p := q.(pc := Load)])
      case Load => s.(procs := s.procs[p := Process(Store, s.count, s.stores)])
      case Store =>
        s.(count := q.reg + 1, stores := s.stores + 1, serial := s.serial && q.seen == s.stores,
           procs := s.procs[p := q.(pc := Done)])
  }

  ghost predicate Next(s: State, s': State)
  {
    exists step :: Enabled(s, step) && s' == Apply(s, step)
  }

  ghost function NextRel(): (State, State) -> bool { (s, s') => Next(s, s') }

  ghost predicate ProcInv(init: int, s: State, q: Process)
  {
    q.pc.Store? ==>
      && init <= q.reg <= init + q.seen && q.seen <= s.stores
      && (q.seen == s.stores ==> q.reg == s.count)
  }

  ghost predicate Inv(init: int, s: State)
  {
    && s.sem == SEM_NUM + s.puts - s.granted
    && init <= s.count <= init + s.stores
    && (s.stores > 0 ==> s.count >= init + 1)
    && (s.serial <==> s.count == init + s.stores)
    && (forall p :: 0 <= p < |s.procs| ==> ProcInv(init, s, s.procs[p]))
  }

  ghost function InvFn(init: int): State -> bool { s => Inv(init, s) }

  lemma StepKeepsInv(init: int, s: State, step: Step)
    requires Inv(init, s) && Enabled(s, step)
    ensures Inv(init, Apply(s, step))
  {
    if step.Run? {
      assert ProcInv(init, s, s.procs[step.p]);
    }
  }

  lemma RunsKeepInv(procs: nat, init: int, run: seq<State>, k: nat)
    requires IsRun(NextRel(), run) && run[0] == Start(procs, init) && k < |run|
    ensures Inv(init, run[k])
  {
    forall s, s' | InvFn(init)(s) && NextRel()(s, s') ensures InvFn(init)(s') {
      var step :| Enabled(s, step) && s' == Apply(s, step);
      StepKeepsInv(init, s, step);
    }
    InvariantHolds(NextRel(), InvFn(init), run, k);
  }

  function Stored(): Process -> int { (q: Process) => if q.pc.Done? then 1 else 0 }
  function Granted(): Process -> int { (q: Process) => if q.pc.Wait? then 0 else 1 }

  /** The counters of gets and stores count the processes that have got that far. */
  ghost predicate Counted(s: State)
  {
    s.stores == SumOf(Stored(), s.procs) && s.granted == SumOf(Granted(), s.procs)
  }

  ghost function CountedFn(): State -> bool { s => Counted(s) }

  lemma {:induction false} NoneYet(qs: seq<Process>)
    requires forall p :: 0 <= p < |qs| ==> qs[p].pc.Wait?
    ensures SumOf(Stored(), qs) == 0 && SumOf(Granted(), qs) == 0
  {
    if qs == [] {
    } else {
      NoneYet(qs[1..]);
    }
  }

  lemma {:induction false} AllDone(qs: seq<Process>)
    requires forall p :: 0 <= p < |qs| ==> qs[p].pc.Done?
    ensures SumOf(Stored(), qs) == |qs| && SumOf(Granted(), qs) == |qs|
  {
    if qs == [] {
    } else {
      AllDone(qs[1..]);
    }
  }

  lemma StepKeepsCounts(s: State, step: Step)
    requires Counted(s) && Enabled(s, step)
    ensures Counted(Apply(s, step))
  {
    if step.Run? {
      SumUpdate(Stored(), s.procs, step.p, Apply(s, step).procs[step.p]);
      SumUpdate(Granted(), s.procs, step.p, Apply(s, step).procs[step.p]);
    }
  }

  lemma StartCounts(procs: nat, init: int)
    ensures Counted(Start(procs, init))
  {
    NoneYet(Start(procs, init).procs);
  }

  lemma RunsKeepCounts(procs: nat, init: int, run: seq<State>, k: nat)
    requires IsRun(NextRel(), run) && run[0] == Start(procs, init) && k < |run|
    ensures Counted(run[k])
  {
    forall s, s' | CountedFn()(s) && NextRel()(s, s') ensures CountedFn()(s') {
      var step :| Enabled(s, step) && s' == Apply(s, step);
      StepKeepsCounts(s, step);
    }
    StartCounts(procs, init);
    InvariantHolds(NextRel(), CountedFn(), run, k);
  }

  /** Whatever the interleaving: no more gets are granted than permits were made, the counter never passes its
      initial value plus the stores made, and once any store is made it stays above its initial value. */
  lemma RacyBounds(procs: nat, init: int, run: seq<State>, k: nat)
    requires IsRun(NextRel(), run) && run[0] == Start(procs, init) && k < |run|
    ensures run[k].granted <= 5 + run[k].puts
    ensures init <= run[k].count <= init + run[k].stores
    ensures run[k].stores > 0 ==> run[k].count >= init + 1
  {
    RunsKeepInv(procs, init, run, k);
  }

  // ---- positions in a run

  /** Step i of the run is process p's load of count. */
  predicate LoadsAt(run: seq<State>, i: nat, p: nat)
  {
    && i + 1 < |run| && p < |run[i].procs| && p < |run[i + 1].procs|
    && run[i].procs[p].pc.Load? && run[i + 1].procs[p].pc.Store?
  }

  /** Step j of the run is process p's store to count. */
  predicate StoresAt(run: seq<State>, j: nat, p: nat)
  {
    && j + 1 < |run| && p < |run[j].procs| && p < |run[j + 1].procs|
    && run[j].procs[p].pc.Store? && run[j + 1].procs[p].pc.Done?
  }

  ghost predicate SomeStoreAt(run: seq<State>, l: nat) { exists q: nat :: StoresAt(run, l, q) }

  ghost predicate StoreBetween(run: seq<State>, i: nat, j: nat) { exists l: nat :: i <= l < j && SomeStoreAt(run, l) }

  /** Among the first k steps, some store falls between another process's load and its store. */
  ghost predicate Overtaken(run: seq<State>, k: nat)
  {
    exists i: nat, j: nat, p: nat :: j < k && LoadsAt(run, i, p) && StoresAt(run, j, p) && StoreBetween(run, i + 1, j)
  }

  function Rank(pc: Pc): nat
  {
    match pc
    case Wait => 0 case SetPid => 1 case Load => 2 case Store => 3 case Done => 4
  }

  lemma StepFacts(s: State, s': State)
    requires Next(s, s')
    ensures |s'.procs| == |s.procs|
    ensures forall p :: 0 <= p < |s.procs| ==> Rank(s.procs[p].pc) <= Rank(s'.procs[p].pc) <= Rank(s.procs[p].pc) + 1
    ensures s.stores <= s'.stores
    ensures s.stores < s'.stores <==>
              exists p :: 0 <= p < |s.procs| && s.procs[p].pc.Store? && s'.procs[p].pc.Done?
  {
    var step :| Enabled(s, step) && s' == Apply(s, step);
    if step.Run? {
      assert forall p :: 0 <= p < |s.procs| && p != step.p ==> s'.procs[p] == s.procs[p];
    }
  }

  lemma {:induction false} RanksGrow(run: seq<State>, i: nat, j: nat, p: nat)
    requires IsRun(NextRel(), run) && i <= j < |run| && p < |run[i].procs|
    ensures |run[j].procs| == |run[i].procs| && Rank(run[i].procs[p].pc) <= Rank(run[j].procs[p].pc)
    decreases j
  {
    if i == j {
    } else {
      RanksGrow(run, i, j - 1, p);
      assert NextRel()(run[j - 1], run[j]);
      StepFacts(run[j - 1], run[j]);
    }
  }

  lemma StoreStep(run: seq<State>, l: nat)
    requires IsRun(NextRel(), run) && l + 1 < |run|
    ensures run[l].stores <= run[l + 1].stores
    ensures run[l].stores < run[l + 1].stores <==> SomeStoreAt(run, l)
  {
    assert NextRel()(run[l], run[l + 1]);
    StepFacts(run[l], run[l + 1]);
    if run[l].stores < run[l + 1].stores {
      var p :| 0 <= p < |run[l].procs| && run[l].procs[p].pc.Store? && run[l + 1].procs[p].pc.Done?;
      assert StoresAt(run, l, p);
    }
  }

  lemma StoreBetweenStep(run: seq<State>, i: nat, m: nat)
    requires i <= m
    ensures StoreBetween(run, i, m + 1) <==> StoreBetween(run, i, m) || SomeStoreAt(run, m)
  {
  }

  /** The store count has grown exactly when some process has stored. */
  lemma StoresGrow(run: seq<State>, i: nat, j: nat)
    requires IsRun(NextRel(), run) && i <= j < |run|
    ensures run[i].stores <= run[j].stores
    ensures run[i].stores < run[j].stores <==> StoreBetween(run, i, j)
  {
    for m := i to j
      invariant run[i].stores <= run[m].stores
      invariant run[i].stores < run[m].stores <==> StoreBetween(run, i, m)
    {
      StoreStep(run, m);
      StoreBetweenStep(run, i, m);
    }
  }

  /** A process about to store was so before, or has just loaded. */
  lemma JustLoaded(s: State, s': State, p: nat)
    requires Next(s, s') && p < |s'.procs| && s'.procs[p].pc.Store?
    ensures p < |s.procs|
    ensures s.procs[p] == s'.procs[p] || (s.procs[p].pc.Load? && s'.procs[p].seen == s.stores)
  {
    var step :| Enabled(s, step) && s' == Apply(s, step);
  }

  /** A process about to store has loaded, and remembers the store count of that moment. */
  lemma {:induction false} LoadIndex(procs: nat, init: int, run: seq<State>, k: nat, p: nat) returns (i: nat)
    requires IsRun(NextRel(), run) && run[0] == Start(procs, init)
    requires k < |run| && p < |run[k].procs| && run[k].procs[p].pc.Store?
    ensures i < k && LoadsAt(run, i, p) && run[i].stores == run[k].procs[p].seen
    decreases k
  {
    if k == 0 {
      assert false;
    } else {
      assert NextRel()(run[k - 1], run[k]);
      JustLoaded(run[k - 1], run[k], p);
      if run[k - 1].procs[p].pc.Store? {
        i := LoadIndex(procs, init, run, k - 1, p);
      } else {
        i := k - 1;
      }
    }
  }

  /** A process loads only once. */
  lemma LoadsOnce(run: seq<State>, i: nat, i': nat, p: nat)
    requires IsRun(NextRel(), run) && LoadsAt(run, i, p) && LoadsAt(run, i', p)
    ensures i == i'
  {
    if i < i' {
      RanksGrow(run, i + 1, i', p);
    } else if i' < i {
      RanksGrow(run, i' + 1, i, p);
    }
  }

  /** One step is not a load and a store. */
  lemma LoadIsNoStore(run: seq<State>, i: nat, p: nat)
    requires IsRun(NextRel(), run) && LoadsAt(run, i, p)
    ensures !SomeStoreAt(run, i)
  {
    assert NextRel()(run[i], run[i + 1]);
    var step :| Enabled(run[i], step) && run[i + 1] == Apply(run[i], step);
  }

  /** Process p's store at step k finds the store count it remembers exactly when no store fell
      between its load and this. */
  lemma StoreIsSerial(procs: nat, init: int, run: seq<State>, k: nat, p: nat)
    requires IsRun(NextRel(), run) && run[0] == Start(procs, init) && StoresAt(run, k, p)
    ensures run[k].procs[p].seen == run[k].stores <==>
              !exists i: nat :: LoadsAt(run, i, p) && StoreBetween(run, i + 1, k)
  {
    var i := LoadIndex(procs, init, run, k, p);
    StoresGrow(run, i + 1, k);
    LoadIsNoStore(run, i, p);
    StoreStep(run, i);
    if i': nat :| LoadsAt(run, i', p) && StoreBetween(run, i' + 1, k) {
      LoadsOnce(run, i, i', p);
    }
  }

  lemma OvertakenStep(run: seq<State>, k: nat)
    ensures Overtaken(run, k + 1) <==>
              || Overtaken(run, k)
              || exists i: nat, p: nat :: LoadsAt(run, i, p) && StoresAt(run, k, p) && StoreBetween(run, i + 1, k)
  {
    if Overtaken(run, k + 1) {
      var i: nat, j: nat, p: nat :|
        j < k + 1 && LoadsAt(run, i, p) && StoresAt(run, j, p) && StoreBetween(run, i + 1, j);
      if j < k {
        assert Overtaken(run, k);
      }
    }
  }

  /** At most one process stores at a step, and the flag records whether that store was serial. */
  lemma SerialStep(run: seq<State>, k: nat)
    requires IsRun(NextRel(), run) && k + 1 < |run|
    ensures run[k + 1].serial <==>
              run[k].serial && forall p: nat :: StoresAt(run, k, p) ==> run[k].procs[p].seen == run[k].stores
  {
    assert NextRel()(run[k], run[k + 1]);
    var step :| Enabled(run[k], step) && run[k + 1] == Apply(run[k], step);
    if step.Run? && run[k].procs[step.p].pc.Store? {
      assert StoresAt(run, k, step.p);
    }
  }

  lemma SerialFlagStep(procs: nat, init: int, run: seq<State>, j: nat)
    requires IsRun(NextRel(), run) && run[0] == Start(procs, init) && j + 1 < |run|
    requires run[j].serial <==> !Overtaken(run, j)
    ensures run[j + 1].serial <==> !Overtaken(run, j + 1)
  {
    OvertakenStep(run, j);
    SerialStep(run, j);
    forall p: nat | StoresAt(run, j, p)
      ensures run[j].procs[p].seen == run[j].stores <==>
                !exists i: nat :: LoadsAt(run, i, p) && StoreBetween(run, i + 1, j)
    {
      StoreIsSerial(procs, init, run, j, p);
    }
  }

  /** The flag kept by the machine means that no store was overtaken. */
  lemma SerialFlag(procs: nat, init: int, run: seq<State>, k: nat)
    requires IsRun(NextRel(), run) && run[0] == Start(procs, init) && k < |run|
    ensures run[k].serial <==> !Overtaken(run, k)
  {
    for j := 0 to k
      invariant run[j].serial <==> !Overtaken(run, j)
    {
      SerialFlagStep(procs, init, run, j);
    }
  }

  /** The counter has every increment exactly when no store fell between another process's load and its store. */
  lemma CountIsExactIffSerial(procs: nat, init: int, run: seq<State>, k: nat)
    requires IsRun(NextRel(), run) && run[0] == Start(procs, init) && k < |run|
    ensures run[k].count == init + run[k].stores <==> !Overtaken(run, k)
  {
    RunsKeepInv(procs, init, run, k);
    SerialFlag(procs, init, run, k);
  }

  // ---- the pid in the segment

  /** Step i of the run is process p's store of its pid. */
  predicate SetsPidAt(run: seq<State>, i: nat, p: nat)
  {
    && i + 1 < |run| && p < |run[i].procs| && p < |run[i + 1].procs|
    && run[i].procs[p].pc.SetPid? && run[i + 1].procs[p].pc.Load?
  }

  ghost predicate SomePidAt(run: seq<State>, i: nat) { exists p: nat :: SetsPidAt(run, i, p) }

  /** No pid is stored from step i on. */
  ghost predicate NoPidFrom(run: seq<State>, i: nat) { forall j: nat :: i <= j ==> !SomePidAt(run, j) }

  /** Process p's is the latest pid store of the run. */
  ghost predicate LatestPid(run: seq<State>, p: nat)
  {
    exists i: nat :: SetsPidAt(run, i, p) && NoPidFrom(run, i + 1)
  }

  /** One step stores the pid of the process that makes it, or leaves the pid alone. */
  lemma PidStep(run: seq<State>, k: nat)
    requires IsRun(NextRel(), run) && k + 1 < |run|
    ensures forall p: nat :: SetsPidAt(run, k, p) ==> run[k + 1].pid == p + 1
    ensures !SomePidAt(run, k) ==> run[k + 1].pid == run[k].pid
  {
    assert NextRel()(run[k], run[k + 1]);
    var step :| Enabled(run[k], step) && run[k + 1] == Apply(run[k], step);
    if step.Run? && run[k].procs[step.p].pc.SetPid? {
      assert SetsPidAt(run, k, step.p);
    }
  }

  lemma PidStays(run: seq<State>, i: nat)
    requires IsRun(NextRel(), run) && i < |run| && NoPidFrom(run, i)
    ensures Last(run).pid == run[i].pid
  {
    for m := i to |run| - 1
      invariant run[m].pid == run[i].pid
    {
      PidStep(run, m);
    }
  }

  lemma PidIs(run: seq<State>, i: nat, p: nat)
    requires IsRun(NextRel(), run) && SetsPidAt(run, i, p) && NoPidFrom(run, i + 1)
    ensures Last(run).pid == p + 1
  {
    PidStep(run, i);
    PidStays(run, i + 1);
  }

  /** If any step stores a pid, there is a last one. */
  lemma LastPidStore(run: seq<State>, i: nat) returns (last: nat)
    requires SomePidAt(run, i)
    ensures SomePidAt(run, last) && NoPidFrom(run, last + 1)
  {
    last := i;
    for m := i + 1 to |run| + 1
      invariant SomePidAt(run, last) && last < m
      invariant forall j: nat :: last < j < m ==> !SomePidAt(run, j)
    {
      if SomePidAt(run, m) {
        last := m;
      }
    }
  }

  lemma PidOf(run: seq<State>, p: nat)
    requires IsRun(NextRel(), run) && LatestPid(run, p)
    ensures Last(run).pid == p + 1
  {
    var i: nat :| SetsPidAt(run, i, p) && NoPidFrom(run, i + 1);
    PidIs(run, i, p);
  }

  lemma SomeIsLatest(run: seq<State>)
    ensures NoPidFrom(run, 0) || exists p: nat :: LatestPid(run, p)
  {
    if !NoPidFrom(run, 0) {
      var i: nat :| SomePidAt(run, i);
      var last := LastPidStore(run, i);
      var p: nat :| SetsPidAt(run, last, p);
      assert LatestPid(run, p);
    }
  }

  /** Every run ends with the pid of the process whose pid store came last in the segment, and with 0 if none has. */
  lemma PidIsLatest(procs: nat, init: int, run: seq<State>)
    requires IsRun(NextRel(), run) && run[0] == Start(procs, init)
    ensures forall p: nat :: LatestPid(run, p) ==> Last(run).pid == p + 1
    ensures NoPidFrom(run, 0) ==> Last(run).pid == 0
    ensures NoPidFrom(run, 0) || exists p: nat :: LatestPid(run, p)
  {
    SomeIsLatest(run);
    forall p: nat | LatestPid(run, p) ensures Last(run).pid == p + 1 {
      PidOf(run, p);
    }
    if NoPidFrom(run, 0) {
      PidStays(run, 0);
    }
  }

  // ---- the lower bound is reached

  /** The first j processes have loaded the counter, nobody has stored. */
  lemma {:induction false} AllLoad(procs: nat, init: int, j: nat) returns (run: seq<State>)
    requires j <= procs
    ensures IsRun(NextRel(), run) && run[0] == Start(procs, init)
    ensures var s := Last(run);
            && |s.procs| == procs && s.count == init && s.stores == 0
            && (forall p :: 0 <= p < j ==> s.procs[p] == Process(Store, init, 0))
            && (forall p :: j <= p < procs ==> s.procs[p].pc == Wait)
  {
    if j == 0 {
      run := [Start(procs, init)];
    } else {
      run := AllLoad(procs, init, j - 1);
      run := ExtendRun(NextRel(), run, Apply(Last(run), Put));
      run := ExtendRun(NextRel(), run, Apply(Last(run), Run(j - 1)));
      run := ExtendRun(NextRel(), run, Apply(Last(run), Run(j - 1)));
      run := ExtendRun(NextRel(), run, Apply(Last(run), Run(j - 1)));
    }
  }

  /** However many processes increment the counter, it can end up just one above where it started. */
  lemma {:induction false} AllButOneLost(procs: nat, init: int, j: nat) returns (run: seq<State>)
    requires 1 <= j <= procs
    ensures IsRun(NextRel(), run) && run[0] == Start(procs, init)
    ensures Last(run).stores == j && Last(run).count == init + 1
    ensures |Last(run).procs| == procs && forall p :: j <= p < procs ==> Last(run).procs[p] == Process(Store, init, 0)
  {
    if j == 1 {
      run := AllLoad(procs, init, procs);
    } else {
      run := AllButOneLost(procs, init, j - 1);
    }
    run := ExtendRun(NextRel(), run, Apply(Last(run), Run(j - 1)));
  }

  // ---- when no increment can be lost

  /** Whatever the scheduling, at every state the counter has every increment made. */
  ghost predicate NeverLosesAny(procs: nat, init: int)
  {
    forall run: seq<State>, k: nat :: IsRun(NextRel(), run) && run[0] == Start(procs, init) && k < |run| ==>
      run[k].count == init + run[k].stores
  }

  ghost predicate OneAtMost(s: State)
  {
    |s.procs| <= 1 && s.serial && (s.stores > 0 ==> |s.procs| == 1 && s.procs[0].pc.Done?)
    && (|s.procs| == 1 && s.procs[0].pc.Store? ==> s.procs[0].seen == s.stores)
  }

  ghost function OneAtMostFn(): State -> bool { s => OneAtMost(s) }

  /** The unlocked counter is safe exactly when there is no other process: a condition known beforehand. */
  lemma NeverLosesAnyIffAlone(procs: nat, init: int)
    ensures NeverLosesAny(procs, init) <==> procs <= 1
  {
    if procs <= 1 {
      forall run: seq<State>, k: nat | IsRun(NextRel(), run) && run[0] == Start(procs, init) && k < |run|
        ensures run[k].count == init + run[k].stores
      {
        forall s, s' | OneAtMostFn()(s) && NextRel()(s, s') ensures OneAtMostFn()(s') {
          var step :| Enabled(s, step) && s' == Apply(s, step);
        }
        InvariantHolds(NextRel(), OneAtMostFn(), run, k);
        RunsKeepInv(procs, init, run, k);
      }
    } else {
      var run := AllButOneLost(procs, init, 2);
      assert run[|run| - 1].count != init + run[|run| - 1].stores;
    }
  }

  /** A process beyond its pid store has made it. */
  lemma {:induction false} PidIndex(procs: nat, init: int, run: seq<State>, k: nat, p: nat) returns (i: nat)
    requires IsRun(NextRel(), run) && run[0] == Start(procs, init)
    requires k < |run| && p < |run[k].procs| && Rank(run[k].procs[p].pc) >= Rank(Load)
    ensures i < k && SetsPidAt(run, i, p)
    decreases k
  {
    if k == 0 {
      assert false;
    } else {
      assert NextRel()(run[k - 1], run[k]);
      StepFacts(run[k - 1], run[k]);
      if Rank(run[k - 1].procs[p].pc) >= Rank(Load) {
        i := PidIndex(procs, init, run, k - 1, p);
      } else {
        i := k - 1;
      }
    }
  }

  lemma PidOfNobody(init: int, run: seq<State>)
    requires IsRun(NextRel(), run) && run[0] == Start(0, init)
    ensures Last(run).pid == 0
  {
    forall i: nat | i + 1 < |run| ensures !SomePidAt(run, i) {
      SizeStays(run, i);
    }
    PidIsLatest(0, init, run);
  }

  lemma PidOfSomebody(procs: nat, init: int, run: seq<State>) returns (p: nat)
    requires IsRun(NextRel(), run) && run[0] == Start(procs, init)
    requires 0 < procs == |Last(run).procs| && Last(run).procs[0].pc.Done?
    ensures LatestPid(run, p) && p < procs && Last(run).pid == p + 1
  {
    var i := PidIndex(procs, init, run, |run| - 1, 0);
    var last := LastPidStore(run, i);
    p :| SetsPidAt(run, last, p);
    PidIs(run, last, p);
    SizeStays(run, last);
  }

  /** How a run ends in which every get has completed: each was granted a permit of its own, the counter has gained at
      least one and at most as many as there are processes, and the pid is that of the latest to store it. */
  ghost predicate AllGot(procs: nat, init: int, run: seq<State>)
    requires |run| > 0
  {
    var s := Last(run);
    && s.stores == procs && s.sem + procs == SEM_NUM + s.puts
    && init <= s.count <= init + procs && (procs > 0 ==> s.count >= init + 1)
    && (procs == 0 ==> s.pid == 0)
    && (procs > 0 ==> exists p: nat :: LatestPid(run, p) && p < procs && s.pid == p + 1)
  }

  lemma AllGotAtTheEnd(procs: nat, init: int, run: seq<State>)
    requires IsRun(NextRel(), run) && run[0] == Start(procs, init)
    requires |Last(run).procs| == procs && forall p :: 0 <= p < procs ==> Last(run).procs[p].pc.Done?
    ensures AllGot(procs, init, run)
  {
    AllDone(Last(run).procs);
    RunsKeepCounts(procs, init, run, |run| - 1);
    RunsKeepInv(procs, init, run, |run| - 1);
    if procs == 0 {
      PidOfNobody(init, run);
    } else {
      var p := PidOfSomebody(procs, init, run);
    }
  }

  lemma SizeStays(run: seq<State>, k: nat)
    requires IsRun(NextRel(), run) && k < |run|
    ensures |run[k].procs| == |run[0].procs|
  {
    InvariantHolds(NextRel(), (s: State) => |s.procs| == |run[0].procs|, run, k);
  }

  // ---- the shared segment itself

  /** What the processes still have to do. */
  function Left(): Process -> int { (q: Process) => 4 - Rank(q.pc) }

  lemma {:induction false} LeftNonNegative(qs: seq<Process>)
    ensures SumOf(Left(), qs) >= 0
  {
    if qs == [] {
    } else {
      LeftNonNegative(qs[1..]);
    }
  }

  /** DATA_INFO in shared memory, and the processes that run posix_unnamed_get on it. `stores` only tells
      which loads have been overtaken. */
  class DataInfo {
    const init: int
    const size: nat
    var sem: nat
    var pid: nat
    var count: int
    var procs: seq<Process>
    var stores: nat
    ghost var s: State
    ghost var trace: seq<State>

    ghost predicate Valid()
      reads this
    {
      && s.sem == sem && s.pid == pid && s.count == count && s.procs == procs && s.stores == stores
      && IsRun(NextRel(), trace) && trace[0] == Start(size, init) && Last(trace) == s
    }

    constructor (size: nat, count: int)
      ensures Valid() && this.size == size && init == count && s == Start(size, count)
    {
      init, this.size := count, size;
      sem, pid, this.count, stores := SEM_NUM, 0, count, 0;
      procs := seq(size, _ => Process(Wait, 0, 0));
      s := Start(size, count);
      trace := [Start(size, count)];
    }

    ghost method Took(step: Step)
      requires IsRun(NextRel(), trace) && Last(trace) == s && Enabled(s, step)
      modifies this`s, this`trace
      ensures s == Apply(old(s), step)
      ensures IsRun(NextRel(), trace) && Last(trace) == s && trace[0] == old(trace[0])
    {
      assert Next(s, Apply(s, step));
      trace := ExtendRun(NextRel(), trace, Apply(s, step));
      s := Last(trace);
    }

    /** posix_unnamed_put */
    method Put()
      requires Valid()
      modifies this
      ensures Valid() && s == Apply(old(s), Step.Put)
    {
      Took(Step.Put);
      sem := sem + 1;
    }

    /** The next step of process p in posix_unnamed_get. */
    method Advance(p: nat)
      requires Valid() && Enabled(s, Run(p))
      modifies this
      ensures Valid() && s == Apply(old(s), Run(p))
      ensures SumOf(Left(), procs) == SumOf(Left(), old(procs)) - 1
    {
      var q := procs[p];
      Took(Run(p));
      match q.pc {
        case Wait =>  // sem_wait
          sem := sem - 1;
          procs := procs[p := q.(pc := SetPid)];
        case SetPid =>
          pid := p + 1;
          procs := procs[p := q.(pc := Load)];
        case Load =>
          procs := procs[p := Process(Store, count, stores)];
        case Store =>
          count, stores := q.reg + 1, stores + 1;
          procs := procs[p := q.(pc := Done)];
      }
      SumUpdate(Left(), old(procs), p, procs[p]);
    }

    /** Lets every process finish, in any interleaving, with any number of puts in between and as many more as
        the processes waiting for the semaphore need. Then every get was granted a permit of its own, and the
        counter has gained at least one and at most as many as there are processes; for one process, exactly one. */
    method RunToEnd()
      requires Valid() && s == Start(size, init)
      modifies this
      ensures Valid() && forall p :: 0 <= p < |procs| ==> procs[p].pc.Done?
      ensures |procs| == size && stores == size && sem + size == SEM_NUM + s.puts
      ensures init <= count <= init + size && (size > 0 ==> count >= init + 1)
      ensures size == 0 ==> pid == 0
      ensures size > 0 ==> exists p: nat :: LatestPid(trace, p) && p < size && pid == p + 1
    {
      var spare: nat := *;
      while exists p :: 0 <= p < |procs| && !procs[p].pc.Done?
        invariant Valid() && |procs| == size
        decreases 2 * SumOf(Left(), procs) + spare + if sem == 0 then 1 else 0
      {
        LeftNonNegative(procs);
        var p: nat, put: bool := *, *;
        if put && spare > 0 {
          Put();
          spare := spare - 1;
        } else if p < |procs| && !procs[p].pc.Done? && (procs[p].pc.Wait? ==> sem > 0) {
          Advance(p);
        } else {
          p :| 0 <= p < |procs| && !procs[p].pc.Done?;
          if procs[p].pc.Wait? && sem == 0 {
            Put();
          } else {
            Advance(p);
          }
        }
        LeftNonNegative(procs);
      }
      AllGotAtTheEnd(size, init, trace);
    }
  }
}
