/** Messages of any number of stores, against the byte-by-byte monitor: if every message changes the value, no
    difference is detected between its first and its last changed byte, and a whole poll falls between any two
    messages, then each message is counted once and saved whole. */
module PacedMessages {
  import opened Bytes
  import opened Runs
  import B = ByteMonitor

  /** `hist` is the starting value and the value each message left, `saved` the local copy after each copy.
      `writing` is true from before a message's first changed byte until after its last. A poll that began after the
      latest message has finished once `mon.polls >= due`. */
  datatype State = State(mon: B.State, hist: seq<seq<byte>>, writing: bool, due: nat, saved: seq<seq<byte>>)

  function Start(start: seq<byte>): State { State(B.Start(start, start), [start], false, 0, []) }

  datatype Step = Begin | Store(at: nat, bytes: seq<byte>) | End | Read

  /** The step at which memcmp finds a difference. */
  predicate Detects(s: B.State)
    requires B.Enabled(s, B.Read)
  {
    s.pc.Compare? && s.pc.i < |s.info| && s.local[s.pc.i] != s.info[s.pc.i]
  }

  predicate Enabled(limit: nat, s: State, step: Step)
  {
    match step
    case Begin => !s.writing && s.mon.pc.Compare? && s.mon.polls >= s.due
    case Store(at, bytes) =>
      at + |bytes| <= |s.mon.info| && (s.writing || Splice(s.mon.info, at, bytes) == s.mon.info)
    case End => s.writing && s.hist != [] && s.mon.info != Last(s.hist)
    case Read => B.Enabled(s.mon, B.Read) && !(s.writing && Detects(s.mon))
  }

  function Apply(limit: nat, s: State, step: Step): State
    requires Enabled(limit, s, step)
  {
    match step
    case Begin => s.(writing := true)
    case Store(at, bytes) => s.(mon := B.Apply(limit, s.mon, B.Store(at, bytes)))
    case End =>
      // a memcmp that has begun does not count as a poll after the message
      s.(writing := false, hist := s.hist + [s.mon.info],
         due := s.mon.polls + if s.mon.pc == B.Compare(0) then 1 else 2)
    case Read =>
      var mon := B.MonitorStep(limit, s.mon);
      s.(mon := mon, saved := if mon.n > s.mon.n then s.saved + [mon.local] else s.saved)
  }

  ghost predicate Next(limit: nat, s: State, s': State)
  {
    exists step :: Enabled(limit, s, step) && s' == Apply(limit, s, step)
  }

  ghost function NextRel(limit: nat): (State, State) -> bool { (s, s') => Next(limit, s, s') }

  /** Each step is one of the monitor against its writers, or leaves it alone. */
  lemma StepOfMonitor(limit: nat, s: State, s': State)
    requires Next(limit, s, s')
    ensures s'.mon == s.mon || B.Next(limit, s.mon, s'.mon)
  {
    var step :| Enabled(limit, s, step) && s' == Apply(limit, s, step);
    match step
    case Store(at, bytes) => assert B.Enabled(s.mon, B.Store(at, bytes));
    case Read => assert B.Enabled(s.mon, B.Read);
    case _ =>
  }

  /** The local copy is up to date, and every message has been counted. */
  predicate UpToDate(s: State)
  {
    s.hist != [] && s.mon.local == Last(s.hist) && s.mon.n == |s.hist| - 1
  }

  /** The latest message is still to be seen. */
  predicate OneBehind(s: State)
  {
    |s.hist| >= 2 && s.mon.local == s.hist[|s.hist| - 2] && s.mon.local != s.mon.info && s.mon.n == |s.hist| - 2
  }

  /** memcmp has not looked at, or has found equal, the first i bytes. */
  predicate SameUpTo(mon: B.State, i: nat)
  {
    i <= |mon.info| && i <= |mon.local| && mon.local[..i] == mon.info[..i]
  }

  predicate CompareInv(limit: nat, s: State, i: nat)
    requires s.hist != []
  {
    && i <= |s.mon.info| && (limit == 0 || s.mon.n < limit)
    && if s.writing then UpToDate(s)
       else if UpToDate(s) then true
       else OneBehind(s) && s.mon.polls < s.due <= s.mon.polls + 2
            && (s.due == s.mon.polls + 1 ==> SameUpTo(s.mon, i))
  }

  ghost predicate Inv(limit: nat, s: State)
  {
    && s.hist != [] && |s.mon.local| == |s.mon.info|
    && (!s.writing ==> s.mon.info == Last(s.hist))
    && s.mon.n + 1 <= |s.hist| && s.saved == s.hist[1..s.mon.n + 1]
    && match s.mon.pc
       case Compare(i) => CompareInv(limit, s, i)
       case Detected => !s.writing && |s.hist| >= 2 && s.mon.n == |s.hist| - 2 && (limit == 0 || s.mon.n < limit)
       case Copy(i) =>
         !s.writing && |s.hist| >= 2 && s.mon.n == |s.hist| - 2 && (limit == 0 || s.mon.n < limit) && SameUpTo(s.mon, i)
       case Stopped => !s.writing && UpToDate(s) && s.mon.n == limit
  }

  ghost function InvFn(limit: nat): State -> bool { s => Inv(limit, s) }

  lemma StoreKeepsInv(limit: nat, s: State, at: nat, bytes: seq<byte>)
    requires Inv(limit, s) && Enabled(limit, s, Store(at, bytes))
    ensures Inv(limit, Apply(limit, s, Store(at, bytes)))
  {
  }

  lemma EndKeepsInv(limit: nat, s: State)
    requires Inv(limit, s) && Enabled(limit, s, End)
    ensures Inv(limit, Apply(limit, s, End))
  {
    var s' := Apply(limit, s, End);
    assert s'.hist[1..s.mon.n + 1] == s.hist[1..s.mon.n + 1];
  }

  lemma CompareKeepsInv(limit: nat, s: State)
    requires Inv(limit, s) && s.mon.pc.Compare? && Enabled(limit, s, Read)
    ensures Inv(limit, Apply(limit, s, Read))
  {
    var i := s.mon.pc.i;
    if i >= |s.mon.info| && SameUpTo(s.mon, i) {
      assert s.mon.local[..i] == s.mon.local && s.mon.info[..i] == s.mon.info;
    }
  }

  lemma CopyKeepsInv(limit: nat, s: State)
    requires Inv(limit, s) && s.mon.pc.Copy?
    ensures Inv(limit, Apply(limit, s, Read))
  {
    var i := s.mon.pc.i;
    if i >= |s.mon.info| {
      assert s.mon.local[..i] == s.mon.local && s.mon.info[..i] == s.mon.info;
    }
  }

  lemma StepKeepsInv(limit: nat, s: State, step: Step)
    requires Inv(limit, s) && Enabled(limit, s, step)
    ensures Inv(limit, Apply(limit, s, step))
  {
    match step
    case Begin =>
    case Store(at, bytes) => StoreKeepsInv(limit, s, at, bytes);
    case End => EndKeepsInv(limit, s);
    case Read =>
      match s.mon.pc {
        case Compare(_) => CompareKeepsInv(limit, s);
        case Detected =>
        case Copy(_) => CopyKeepsInv(limit, s);
      }
  }

  lemma RunsKeepInv(limit: nat, run: seq<State>, start: seq<byte>, k: nat)
    requires IsRun(NextRel(limit), run) && run[0] == Start(start) && k < |run|
    ensures Inv(limit, run[k])
  {
    forall s, s' | InvFn(limit)(s) && NextRel(limit)(s, s') ensures InvFn(limit)(s') {
      var step :| Enabled(limit, s, step) && s' == Apply(limit, s, step);
      StepKeepsInv(limit, s, step);
    }
    InvariantHolds(NextRel(limit), InvFn(limit), run, k);
  }

  /** At every state the saved snapshots are exactly the first messages, whole, once each and in order, and at most
      the latest message is still uncounted; none is once a poll begun after it has finished and been copied. */
  lemma EachMessageCountedOnce(limit: nat, run: seq<State>, start: seq<byte>, k: nat)
    requires IsRun(NextRel(limit), run) && run[0] == Start(start) && k < |run|
    ensures var s := run[k];
            && |s.hist| - 2 <= s.mon.n <= |s.hist| - 1
            && s.saved == s.hist[1..s.mon.n + 1]
            && (!s.writing && s.mon.polls >= s.due && s.mon.pc.Compare? ==> s.mon.n == |s.hist| - 1)
  {
    RunsKeepInv(limit, run, start, k);
  }

  const FORK_NUM := 5

  /** The anonymous monitor, byte by byte: when its children have written their messages, a poll has followed the last
      and nothing is being copied, it has left its loop with exactly their messages saved, in the order written. */
  lemma AnonMonitorRecordsAll(run: seq<State>, start: seq<byte>, messages: seq<seq<byte>>)
    requires IsRun(NextRel(FORK_NUM), run) && run[0] == Start(start)
    requires |messages| == FORK_NUM && Last(run).hist == [start] + messages
    requires !Last(run).writing && Last(run).mon.polls >= Last(run).due
    requires !Last(run).mon.pc.Detected? && !Last(run).mon.pc.Copy?
    ensures Last(run).mon.pc.Stopped? && Last(run).mon.n == 5 && Last(run).saved == messages
  {
    RunsKeepInv(FORK_NUM, run, start, |run| - 1);
    assert ([start] + messages)[1..] == messages;
  }

  // ---- any messages can be paced

  /** Undisturbed reads of the monitor, with no message under way. */
  lemma ReadOn(limit: nat, run: seq<State>, polls: seq<B.State>) returns (run': seq<State>)
    requires IsRun(NextRel(limit), run) && !Last(run).writing
    requires IsRun(B.ReadRel(limit), polls) && polls[0] == Last(run).mon
    ensures IsRun(NextRel(limit), run') && run'[0] == run[0]
    ensures Last(run') == Last(run).(mon := Last(polls), saved := Last(run').saved)
    decreases |polls|
  {
    run' := run;
    if |polls| > 1 {
      var front := polls[..|polls| - 1];
      run' := ReadOn(limit, run, front);
      assert B.ReadRel(limit)(Last(front), Last(polls));
      run' := ExtendRun(NextRel(limit), run', Apply(limit, Last(run'), Read));
    }
  }

  /** Between two messages, each so far having been counted. */
  ghost predicate Ready(limit: nat, s: State, hist: seq<seq<byte>>)
  {
    && Inv(limit, s) && s.hist == hist && !s.writing && s.mon.n == |hist| - 1 && s.mon.polls >= s.due
    && s.mon.local == s.mon.info
    && s.mon.pc == if limit > 0 && |hist| - 1 == limit then B.Stopped else B.Compare(0)
  }

  /** A message, stored at once, and one poll. */
  lemma OneMessage(limit: nat, run: seq<State>, start: seq<byte>, hist: seq<seq<byte>>, message: seq<byte>)
    returns (run': seq<State>)
    requires IsRun(NextRel(limit), run) && run[0] == Start(start) && Ready(limit, Last(run), hist)
    requires limit == 0 || |hist| <= limit
    requires |message| == |Last(hist)| && message != Last(hist)
    ensures IsRun(NextRel(limit), run') && run'[0] == Start(start) && Ready(limit, Last(run'), hist + [message])
    ensures Last(run').mon.polls == Last(run).mon.polls + 1
  {
    run' := ExtendRun(NextRel(limit), run, Apply(limit, Last(run), Begin));
    var info := Last(run').mon.info;
    assert Splice(info, 0, message) == message;
    run' := ExtendRun(NextRel(limit), run', Apply(limit, Last(run'), Store(0, message)));
    run' := ExtendRun(NextRel(limit), run', Apply(limit, Last(run'), End));
    var polls := B.Poll(limit, Last(run').mon);
    run' := ReadOn(limit, run', polls);
    RunsKeepInv(limit, run', start, |run'| - 1);
  }

  /** Every sequence of messages, each other than what it finds, has such a run, and one poll after each is enough for
      the monitor to save them all. `hist` is what was there before, and then the messages. */
  lemma AnyMessagesCanBePaced(limit: nat, hist: seq<seq<byte>>) returns (run: seq<State>)
    requires hist != [] && (limit == 0 || |hist| - 1 <= limit)
    requires forall i :: 0 < i < |hist| ==> |hist[i]| == |hist[i - 1]| && hist[i] != hist[i - 1]
    ensures IsRun(NextRel(limit), run) && run[0] == Start(hist[0])
    ensures Last(run).hist == hist && Last(run).saved == hist[1..] && Last(run).mon.polls == |hist| - 1
  {
    run := [Start(hist[0])];
    assert hist[..1] == [hist[0]];
    for i := 1 to |hist|
      invariant IsRun(NextRel(limit), run) && run[0] == Start(hist[0])
      invariant Ready(limit, Last(run), hist[..i]) && Last(run).mon.polls == i - 1
    {
      assert hist[..i + 1] == hist[..i] + [hist[i]];
      run := OneMessage(limit, run, hist[0], hist[..i], hist[i]);
    }
    assert hist[..|hist|] == hist;
  }
}
