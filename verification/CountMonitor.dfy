/** posix_unnamed_monitor against the processes that get and put: how often the gets and puts of the semaphore-guarded
    counter can be counted. Each field of the segment is a word, stored at once. */
module CountMonitor {
  import opened Bytes
  import opened Runs
  import opened Sums
  import B = ByteMonitor
  import C = SharedCount

  /** DATA_INFO: the semaphore, pid and count. */
  function Layout(s: C.State): seq<byte> { Word(s.sem) + Word(s.pid) + Word(s.count) }

  datatype Field = Sem | Pid | Count

  function Offset(f: Field): nat { match f case Sem => 0 case Pid => 4 case Count => 8 }

  function Value(s: C.State, f: Field): int { match f case Sem => s.sem case Pid => s.pid case Count => s.count }

  /** A load of count stores nothing. */
  predicate Stores(s: C.State, step: C.Step)
    requires C.Enabled(s, step)
  {
    step.Run? ==> !s.procs[step.p].pc.Load?
  }

  /** Where a step stores. */
  function Target(s: C.State, step: C.Step): Field
    requires C.Enabled(s, step)
  {
    match step
    case Put => Sem
    case Run(p) => match s.procs[p].pc case SetPid => Pid case Store => Count case _ => Sem
  }

  datatype State = State(mon: B.State, shared: C.State)

  /** The monitor clears its local copy and then initialises the semaphore, which is a first difference. */
  function Start(gets: nat, init: int): State
  {
    State(B.Start(Layout(C.Start(gets, init)), Zeros(12)), C.Start(gets, init))
  }

  datatype Step = Act(step: C.Step) | Read

  predicate Enabled(s: State, step: Step)
  {
    match step
    case Act(step) => C.Enabled(s.shared, step) && |s.mon.info| == 12
    case Read => B.Enabled(s.mon, B.Read)
  }

  function Apply(limit: nat, s: State, step: Step): State
    requires Enabled(s, step)
  {
    match step
    case Act(step) =>
      var shared, f := C.Apply(s.shared, step), Target(s.shared, step);
      if Stores(s.shared, step) then State(B.Apply(limit, s.mon, B.Store(Offset(f), Word(Value(shared, f)))), shared)
      else s.(shared := shared)
    case Read => s.(mon := B.MonitorStep(limit, s.mon))
  }

  ghost predicate Next(limit: nat, s: State, s': State)
  {
    exists step :: Enabled(s, step) && s' == Apply(limit, s, step)
  }

  ghost function NextRel(limit: nat): (State, State) -> bool { (s, s') => Next(limit, s, s') }

  ghost predicate IsWatch(limit: nat, gets: nat, init: int, run: seq<State>)
  {
    IsRun(NextRel(limit), run) && run[0] == Start(gets, init)
  }

  // ---- each get at most three times, each put at most once

  /** How many stores a process has made. */
  function Made(): C.Process -> int
  {
    (q: C.Process) => match q.pc case Wait => 0 case SetPid => 1 case Load => 2 case Store => 2 case Done => 3
  }

  ghost predicate Inv(limit: nat, s: State)
  {
    && s.mon.info == Layout(s.shared) && B.Inv(limit, s.mon) && C.Counted(s.shared)
    && s.mon.changes <= 1 + s.shared.puts + SumOf(Made(), s.shared.procs)
  }

  ghost function InvFn(limit: nat): State -> bool { s => Inv(limit, s) }

  lemma LayoutAfter(s: C.State, step: C.Step)
    requires C.Enabled(s, step)
    ensures var (s', f) := (C.Apply(s, step), Target(s, step));
            Layout(s') == if Stores(s, step) then Splice(Layout(s), Offset(f), Word(Value(s', f))) else Layout(s)
  {
  }

  lemma MadeAfter(s: C.State, step: C.Step)
    requires C.Enabled(s, step)
    ensures var s' := C.Apply(s, step);
            s'.puts + SumOf(Made(), s'.procs) == s.puts + SumOf(Made(), s.procs) + if Stores(s, step) then 1 else 0
  {
    if step.Run? {
      SumUpdate(Made(), s.procs, step.p, C.Apply(s, step).procs[step.p]);
    }
  }

  lemma MonitorKeepsInv(limit: nat, s: State, step: C.Step)
    requires B.Inv(limit, s.mon) && Enabled(s, Act(step))
    ensures var (mon, mon') := (s.mon, Apply(limit, s, Act(step)).mon);
            && B.Inv(limit, mon') && mon'.changes <= mon.changes + (if Stores(s.shared, step) then 1 else 0)
  {
    var f := Target(s.shared, step);
    B.StoreKeepsInv(limit, s.mon, Offset(f), Word(Value(C.Apply(s.shared, step), f)));
  }

  lemma ActKeepsInv(limit: nat, s: State, step: C.Step)
    requires Inv(limit, s) && Enabled(s, Act(step))
    ensures Inv(limit, Apply(limit, s, Act(step)))
  {
    LayoutAfter(s.shared, step);
    C.StepKeepsCounts(s.shared, step);
    MadeAfter(s.shared, step);
    MonitorKeepsInv(limit, s, step);
  }

  lemma ReadKeepsInv(limit: nat, s: State)
    requires Inv(limit, s) && Enabled(s, Read)
    ensures Inv(limit, Apply(limit, s, Read))
  {
    B.ReadKeepsInv(limit, s.mon);
    B.ReadLeavesMemory(limit, s.mon);
  }

  lemma {:induction false} MadeByWaiting(qs: seq<C.Process>)
    requires forall p :: 0 <= p < |qs| ==> qs[p].pc.Wait?
    ensures SumOf(Made(), qs) == 0
  {
    if qs == [] {
    } else {
      MadeByWaiting(qs[1..]);
    }
  }

  lemma {:induction false} MadeByGranted(qs: seq<C.Process>)
    ensures SumOf(Made(), qs) <= 3 * SumOf(C.Granted(), qs)
  {
    if qs == [] {
    } else {
      MadeByGranted(qs[1..]);
    }
  }

  lemma StartInv(limit: nat, gets: nat, init: int)
    ensures Inv(limit, Start(gets, init)) && Start(gets, init).mon.changes == 1
  {
    var s := Start(gets, init);
    assert s.mon.info[0] == 5;
    C.StartCounts(gets, init);
    MadeByWaiting(s.shared.procs);
  }

  lemma RunsKeepInv(limit: nat, gets: nat, init: int, run: seq<State>, k: nat)
    requires IsWatch(limit, gets, init, run) && k < |run|
    ensures Inv(limit, run[k])
  {
    forall s, s' | InvFn(limit)(s) && NextRel(limit)(s, s') ensures InvFn(limit)(s') {
      var step :| Enabled(s, step) && s' == Apply(limit, s, step);
      match step {
        case Act(step) => ActKeepsInv(limit, s, step);
        case Read => ReadKeepsInv(limit, s);
      }
    }
    StartInv(limit, gets, init);
    InvariantHolds(NextRel(limit), InvFn(limit), run, k);
  }

  /** Besides the initialisation, a put is counted at most once and a get at most three times. */
  lemma CountedAtMost(limit: nat, gets: nat, init: int, run: seq<State>, k: nat)
    requires IsWatch(limit, gets, init, run) && k < |run|
    ensures run[k].mon.n <= 1 + run[k].shared.puts + 3 * run[k].shared.granted
    ensures limit > 0 ==> run[k].mon.n <= limit
  {
    RunsKeepInv(limit, gets, init, run, k);
    B.CountBound(limit, run[k].mon);
    MadeByGranted(run[k].shared.procs);
  }

  // ---- and any number of times up to that

  /** Undisturbed reads of the monitor. */
  lemma ReadOn(limit: nat, run: seq<State>, polls: seq<B.State>) returns (run': seq<State>)
    requires IsRun(NextRel(limit), run) && IsRun(B.ReadRel(limit), polls) && polls[0] == Last(run).mon
    ensures IsRun(NextRel(limit), run') && run'[0] == run[0]
    ensures Last(run') == Last(run).(mon := Last(polls))
  {
    var embed := (m: B.State) => State(m, Last(run).shared);
    forall m, m' | B.ReadRel(limit)(m, m') ensures NextRel(limit)(embed(m), embed(m')) {
      assert embed(m') == Apply(limit, embed(m), Read);
    }
    run' := EmbedRun(B.ReadRel(limit), polls, embed, NextRel(limit), run);
  }

  /** Between polls, with so many changes made. */
  ghost predicate At(limit: nat, s: State, n: nat, shared: C.State, changes: nat)
  {
    s.shared == shared && s.mon.info == Layout(shared) && s.mon.changes == changes && B.Settled(limit, s.mon, n)
  }

  /** The next value of a field has another low byte. */
  lemma NewWord(mem: seq<byte>, at: nat, v: int, v': int)
    requires at + 4 <= |mem| && mem[at..at + 4] == Word(v) && (v' == v + 1 || v' == v - 1)
    ensures Splice(mem, at, Word(v')) != mem
  {
    assert mem[at] == mem[at..at + 4][0] == Word(v)[0];
    assert Splice(mem, at, Word(v'))[at] == Word(v')[0];
  }

  lemma FieldIsThere(s: C.State, f: Field)
    ensures |Layout(s)| == 12 && Layout(s)[Offset(f)..Offset(f) + 4] == Word(Value(s, f))
  {
  }

  /** A step that stores a new value, and a poll unless the count is n already. */
  lemma ActAndPoll(limit: nat, run: seq<State>, step: C.Step, n: nat, s: C.State, changes: nat)
    returns (run': seq<State>)
    requires IsRun(NextRel(limit), run) && At(limit, Last(run), n, s, changes) && (limit > 0 ==> n <= limit)
    requires C.Enabled(s, step) && Stores(s, step)
    requires var (v, v') := (Value(s, Target(s, step)), Value(C.Apply(s, step), Target(s, step)));
             v' == v + 1 || v' == v - 1
    ensures IsRun(NextRel(limit), run') && run'[0] == run[0]
    ensures At(limit, Last(run'), n, C.Apply(s, step), changes + 1)
  {
    var f, s' := Target(s, step), C.Apply(s, step);
    var mon := Last(run).mon;
    LayoutAfter(s, step);
    FieldIsThere(s, f);
    NewWord(Layout(s), Offset(f), Value(s, f), Value(s', f));
    run' := ExtendRun(NextRel(limit), run, Apply(limit, Last(run), Act(step)));
    var polls := B.PollAfterStore(limit, mon, Offset(f), Word(Value(s', f)), n);
    run' := ReadOn(limit, run', polls);
  }

  /** The first poll finds the initialised semaphore. */
  lemma FirstPoll(limit: nat, gets: nat, init: int, n: nat) returns (run: seq<State>)
    requires limit > 0 ==> n <= limit
    ensures IsWatch(limit, gets, init, run) && At(limit, Last(run), n, C.Start(gets, init), 1)
  {
    var s := Start(gets, init);
    StartInv(limit, gets, init);
    run := [s];
    if n > 0 {
      var polls := B.Poll(limit, s.mon);
      run := ReadOn(limit, run, polls);
    }
  }

  /** After so many puts, with the first j gets done one after the other and the others not begun. */
  predicate InTurn(gets: nat, init: int, puts: nat, j: nat, s: C.State)
  {
    && s.puts == puts && s.sem == C.SEM_NUM + puts - j && s.pid == j && s.count == init + j && |s.procs| == gets
    && forall p :: 0 <= p < gets ==> if p < j then s.procs[p].pc.Done? else s.procs[p].pc.Wait?
  }

  lemma AllPuts(limit: nat, gets: nat, init: int, puts: nat, n: nat) returns (run: seq<State>)
    requires limit > 0 ==> n <= limit
    ensures IsWatch(limit, gets, init, run) && InTurn(gets, init, puts, 0, Last(run).shared)
    ensures At(limit, Last(run), n, Last(run).shared, 1 + puts)
  {
    run := FirstPoll(limit, gets, init, n);
    for i := 0 to puts
      invariant IsWatch(limit, gets, init, run) && InTurn(gets, init, i, 0, Last(run).shared)
      invariant At(limit, Last(run), n, Last(run).shared, 1 + i)
    {
      run := ActAndPoll(limit, run, C.Put, n, Last(run).shared, 1 + i);
    }
  }

  /** The four steps of the next get, three of which store a neighbouring value. */
  lemma NextGet(s: C.State, gets: nat, init: int, puts: nat, j: nat) returns (s1: C.State, s2: C.State, s3: C.State)
    requires InTurn(gets, init, puts, j, s) && j < gets <= C.SEM_NUM + puts
    ensures var step := C.Run(j);
            && C.Enabled(s, step) && Stores(s, step) && Target(s, step) == Sem
            && s1 == C.Apply(s, step) && s1.sem == s.sem - 1
            && C.Enabled(s1, step) && Stores(s1, step) && Target(s1, step) == Pid
            && s2 == C.Apply(s1, step) && s2.pid == s1.pid + 1
            && C.Enabled(s2, step) && !Stores(s2, step) && s3 == C.Apply(s2, step)
            && C.Enabled(s3, step) && Stores(s3, step) && Target(s3, step) == Count
            && C.Apply(s3, step).count == s3.count + 1 && InTurn(gets, init, puts, j + 1, C.Apply(s3, step))
  {
    s1 := C.Apply(s, C.Run(j));
    s2 := C.Apply(s1, C.Run(j));
    s3 := C.Apply(s2, C.Run(j));
  }

  lemma LoadOn(limit: nat, run: seq<State>, step: C.Step, n: nat, s: C.State, changes: nat) returns (run': seq<State>)
    requires IsRun(NextRel(limit), run) && At(limit, Last(run), n, s, changes)
    requires C.Enabled(s, step) && !Stores(s, step)
    ensures IsRun(NextRel(limit), run') && run'[0] == run[0] && At(limit, Last(run'), n, C.Apply(s, step), changes)
  {
    LayoutAfter(s, step);
    run' := ExtendRun(NextRel(limit), run, Apply(limit, Last(run), Act(step)));
  }

  /** One get from beginning to end, which is three changes. */
  lemma WholeGet(limit: nat, run: seq<State>, gets: nat, init: int, puts: nat, j: nat, n: nat, changes: nat)
    returns (run': seq<State>)
    requires IsRun(NextRel(limit), run) && InTurn(gets, init, puts, j, Last(run).shared) && (limit > 0 ==> n <= limit)
    requires At(limit, Last(run), n, Last(run).shared, changes) && j < gets <= C.SEM_NUM + puts
    ensures IsRun(NextRel(limit), run') && run'[0] == run[0] && InTurn(gets, init, puts, j + 1, Last(run').shared)
    ensures At(limit, Last(run'), n, Last(run').shared, changes + 3)
  {
    var s, step := Last(run).shared, C.Run(j);
    var s1, s2, s3 := NextGet(s, gets, init, puts, j);
    run' := ActAndPoll(limit, run, step, n, s, changes);
    run' := ActAndPoll(limit, run', step, n, s1, changes + 1);
    run' := LoadOn(limit, run', step, n, s2, changes + 2);
    run' := ActAndPoll(limit, run', step, n, s3, changes + 2);
  }

  /** Some run ends with all gets done after so many puts, and the monitor has counted n. */
  ghost predicate CanCount(limit: nat, gets: nat, puts: nat, init: int, n: nat)
  {
    exists run :: IsWatch(limit, gets, init, run) && Ends(Last(run), gets, puts, n)
  }

  predicate Ends(s: State, gets: nat, puts: nat, n: nat)
  {
    s.shared.granted == s.shared.stores == gets && s.shared.puts == puts && s.mon.n == n
  }

  lemma CountRun(limit: nat, gets: nat, puts: nat, init: int, n: nat)
    requires gets <= C.SEM_NUM + puts && n <= 1 + puts + 3 * gets && (limit > 0 ==> n <= limit)
    ensures CanCount(limit, gets, puts, init, n)
  {
    var run := AllPuts(limit, gets, init, puts, n);
    for j := 0 to gets
      invariant IsWatch(limit, gets, init, run) && InTurn(gets, init, puts, j, Last(run).shared)
      invariant At(limit, Last(run), n, Last(run).shared, 1 + puts + 3 * j)
    {
      run := WholeGet(limit, run, gets, init, puts, j, n, 1 + puts + 3 * j);
    }
    RunsKeepInv(limit, gets, init, run, |run| - 1);
    C.AllDone(Last(run).shared.procs);
    assert Ends(Last(run), gets, puts, n);
  }

  lemma SemIsWhatIsLeft(limit: nat, gets: nat, init: int, run: seq<State>, k: nat)
    requires IsWatch(limit, gets, init, run) && k < |run|
    ensures run[k].shared.granted <= C.SEM_NUM + run[k].shared.puts
  {
    var inv := (s: State) => s.shared.sem + s.shared.granted == C.SEM_NUM + s.shared.puts;
    InvariantHolds(NextRel(limit), inv, run, k);
  }

  /** What so many gets and puts can be counted as: anything from nothing at all to once for the initialisation, once
      for each put and three times for each get, as far as the limit goes. */
  lemma CountsPossible(limit: nat, gets: nat, puts: nat, init: int, n: nat)
    ensures CanCount(limit, gets, puts, init, n) <==>
              gets <= C.SEM_NUM + puts && n <= 1 + puts + 3 * gets && (limit > 0 ==> n <= limit)
  {
    if gets <= C.SEM_NUM + puts && n <= 1 + puts + 3 * gets && (limit > 0 ==> n <= limit) {
      CountRun(limit, gets, puts, init, n);
    }
    if CanCount(limit, gets, puts, init, n) {
      var run :| IsWatch(limit, gets, init, run) && Ends(Last(run), gets, puts, n);
      CountedAtMost(limit, gets, init, run, |run| - 1);
      SemIsWhatIsLeft(limit, gets, init, run, |run| - 1);
    }
  }

  const COUNTS := 5

  /** So when the monitor has stopped after its five counts, nothing follows about the gets but that they and the puts
      have made four stores; and any of them may have passed without a count. */
  lemma FiveCounts(gets: nat, puts: nat, init: int)
    requires gets <= C.SEM_NUM + puts
    ensures CanCount(COUNTS, gets, puts, init, COUNTS) <==> puts + 3 * gets >= 4
    ensures CanCount(COUNTS, gets, puts, init, 0)
  {
    CountsPossible(COUNTS, gets, puts, init, COUNTS);
    CountsPossible(COUNTS, gets, puts, init, 0);
  }
}
