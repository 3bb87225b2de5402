/** One writer that carries out a program of stores, against the monitor: how often the program can be counted, and when
    it is counted at most once whatever the timing. */
module OneWriter {
  import opened Bytes
  import opened Runs
  import B = ByteMonitor

  /** One store, of a byte or of a word. */
  datatype Write = Write(at: nat, bytes: seq<byte>)

  predicate Fits(prog: seq<Write>, size: nat)
  {
    forall i :: 0 <= i < |prog| ==> prog[i].at + |prog[i].bytes| <= size
  }

  /** `mem` after the stores. */
  function Memory(mem: seq<byte>, prog: seq<Write>): seq<byte>
    requires Fits(prog, |mem|)
    decreases |prog|
  {
    if prog == [] then mem else Memory(Splice(mem, prog[0].at, prog[0].bytes), prog[1..])
  }

  /** How many of the stores, carried out in order, change anything. */
  function Effects(mem: seq<byte>, prog: seq<Write>): nat
    requires Fits(prog, |mem|)
    decreases |prog|
  {
    if prog == [] then 0
    else
      var mem' := Splice(mem, prog[0].at, prog[0].bytes);
      (if mem' == mem then 0 else 1) + Effects(mem', prog[1..])
  }

  /** `todo` is what is left of the program. */
  datatype State = State(mon: B.State, todo: seq<Write>)

  function Start(mem: seq<byte>, prog: seq<Write>): State { State(B.Start(mem, mem), prog) }

  datatype Step = Store | Read

  predicate Enabled(s: State, step: Step)
  {
    match step
    case Store => s.todo != [] && B.Enabled(s.mon, B.Store(s.todo[0].at, s.todo[0].bytes))
    case Read => B.Enabled(s.mon, B.Read)
  }

  function Apply(limit: nat, s: State, step: Step): State
    requires Enabled(s, step)
  {
    match step
    case Store => State(B.Apply(limit, s.mon, B.Store(s.todo[0].at, s.todo[0].bytes)), s.todo[1..])
    case Read => s.(mon := B.MonitorStep(limit, s.mon))
  }

  ghost predicate Next(limit: nat, s: State, s': State)
  {
    exists step :: Enabled(s, step) && s' == Apply(limit, s, step)
  }

  ghost function NextRel(limit: nat): (State, State) -> bool { (s, s') => Next(limit, s, s') }

  ghost predicate IsRunOf(limit: nat, mem: seq<byte>, prog: seq<Write>, run: seq<State>)
  {
    Fits(prog, |mem|) && IsRun(NextRel(limit), run) && run[0] == Start(mem, prog)
  }

  // ---- at most once for each store that changes anything

  ghost predicate Inv(limit: nat, mem: seq<byte>, changes: nat, s: State)
  {
    && Fits(s.todo, |s.mon.info|) && Memory(s.mon.info, s.todo) == mem
    && s.mon.changes + Effects(s.mon.info, s.todo) == changes
    && B.Inv(limit, s.mon)
  }

  ghost function InvFn(limit: nat, mem: seq<byte>, changes: nat): State -> bool { s => Inv(limit, mem, changes, s) }

  lemma StoreKeepsInv(limit: nat, mem: seq<byte>, changes: nat, s: State)
    requires Inv(limit, mem, changes, s) && Enabled(s, Store)
    ensures Inv(limit, mem, changes, Apply(limit, s, Store))
  {
    B.StoreKeepsInv(limit, s.mon, s.todo[0].at, s.todo[0].bytes);
  }

  lemma ReadKeepsInv(limit: nat, mem: seq<byte>, changes: nat, s: State)
    requires Inv(limit, mem, changes, s) && Enabled(s, Read)
    ensures Inv(limit, mem, changes, Apply(limit, s, Read))
  {
    B.ReadKeepsInv(limit, s.mon);
    B.ReadLeavesMemory(limit, s.mon);
  }

  lemma RunsKeepInv(limit: nat, run: seq<State>, mem: seq<byte>, prog: seq<Write>, k: nat)
    requires IsRunOf(limit, mem, prog, run) && k < |run|
    ensures Inv(limit, Memory(mem, prog), Effects(mem, prog), run[k])
  {
    var mem', changes := Memory(mem, prog), Effects(mem, prog);
    var inv := InvFn(limit, mem', changes);
    forall s, s' | inv(s) && NextRel(limit)(s, s') ensures inv(s') {
      var step :| Enabled(s, step) && s' == Apply(limit, s, step);
      match step {
        case Store => StoreKeepsInv(limit, mem', changes, s);
        case Read => ReadKeepsInv(limit, mem', changes, s);
      }
    }
    InvariantHolds(NextRel(limit), inv, run, k);
  }

  /** No run counts the program more often than its stores change anything. */
  lemma CountedAtMost(limit: nat, run: seq<State>, mem: seq<byte>, prog: seq<Write>, k: nat)
    requires IsRunOf(limit, mem, prog, run) && k < |run|
    ensures run[k].mon.n <= Effects(mem, prog)
    ensures limit > 0 ==> run[k].mon.n <= limit
  {
    RunsKeepInv(limit, run, mem, prog, k);
    B.CountBound(limit, run[k].mon);
  }

  // ---- and any number of times up to that

  /** Undisturbed reads of the monitor, while the writer makes no store. */
  lemma ReadOn(limit: nat, run: seq<State>, polls: seq<B.State>) returns (run': seq<State>)
    requires IsRun(NextRel(limit), run) && IsRun(B.ReadRel(limit), polls) && polls[0] == Last(run).mon
    ensures IsRun(NextRel(limit), run') && run'[0] == run[0]
    ensures Last(run') == Last(run).(mon := Last(polls))
  {
    var embed := (m: B.State) => State(m, Last(run).todo);
    forall m, m' | B.ReadRel(limit)(m, m') ensures NextRel(limit)(embed(m), embed(m')) {
      assert embed(m') == Apply(limit, embed(m), Read);
    }
    run' := EmbedRun(B.ReadRel(limit), polls, embed, NextRel(limit), run);
  }

  /** What is left of the program is carried out; a whole poll follows each store until the count is n, and none
      after that. */
  lemma {:induction false} PollUpTo(limit: nat, run: seq<State>, n: nat) returns (run': seq<State>)
    requires IsRun(NextRel(limit), run) && B.Settled(limit, Last(run).mon, n) && (limit > 0 ==> n <= limit)
    requires Fits(Last(run).todo, |Last(run).mon.info|)
    ensures IsRun(NextRel(limit), run') && run'[0] == run[0]
    ensures Last(run').todo == [] && B.Settled(limit, Last(run').mon, n)
    decreases |Last(run).todo|
  {
    run' := run;
    if Last(run).todo != [] {
      var s, w := Last(run), Last(run).todo[0];
      run' := ExtendRun(NextRel(limit), run, Apply(limit, s, Store));
      var polls := B.PollAfterStore(limit, s.mon, w.at, w.bytes, n);
      run' := ReadOn(limit, run', polls);
      run' := PollUpTo(limit, run', n);
    }
  }

  /** Some run carries out the whole program and counts it n times. */
  ghost predicate CanCount(limit: nat, mem: seq<byte>, prog: seq<Write>, n: nat)
  {
    exists run :: IsRunOf(limit, mem, prog, run) && Last(run).todo == [] && Last(run).mon.n == n
  }

  /** The counts that can come out are exactly those up to the number of stores that change anything, and the limit. */
  lemma CountsPossible(limit: nat, mem: seq<byte>, prog: seq<Write>, n: nat)
    requires Fits(prog, |mem|)
    ensures CanCount(limit, mem, prog, n) <==> n <= Effects(mem, prog) && (limit > 0 ==> n <= limit)
  {
    if n <= Effects(mem, prog) && (limit > 0 ==> n <= limit) {
      var run := PollUpTo(limit, [Start(mem, prog)], n);
      RunsKeepInv(limit, run, mem, prog, |run| - 1);
    }
    if CanCount(limit, mem, prog, n) {
      var run :| IsRunOf(limit, mem, prog, run) && Last(run).todo == [] && Last(run).mon.n == n;
      CountedAtMost(limit, run, mem, prog, |run| - 1);
    }
  }

  /** However the stores and the polls fall, the program is counted at most once. */
  ghost predicate CountedOnceAtMost(limit: nat, mem: seq<byte>, prog: seq<Write>)
  {
    forall run: seq<State> :: IsRunOf(limit, mem, prog, run) ==> Last(run).mon.n <= 1
  }

  /** That is so exactly if at most one store changes anything, or the monitor stops at one. */
  lemma CountedOnceIff(limit: nat, mem: seq<byte>, prog: seq<Write>)
    requires Fits(prog, |mem|)
    ensures CountedOnceAtMost(limit, mem, prog) <==> Effects(mem, prog) <= 1 || limit == 1
  {
    if Effects(mem, prog) <= 1 || limit == 1 {
      forall run: seq<State> | IsRunOf(limit, mem, prog, run) ensures Last(run).mon.n <= 1 {
        CountedAtMost(limit, run, mem, prog, |run| - 1);
      }
    } else {
      CountsPossible(limit, mem, prog, 2);
      var run :| IsRunOf(limit, mem, prog, run) && Last(run).todo == [] && Last(run).mon.n == 2;
    }
  }
}
