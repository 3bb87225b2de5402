/** When writers keep out of the monitor's polls, its byte-by-byte loop refines the one-step monitor. */
module MonitorRefinement {
  import opened Bytes
  import opened Runs
  import B = ByteMonitor
  import A = AtomicMonitor

  /** Writers store only while memcmp has not begun. */
  ghost predicate QuietStep(s: B.State, step: B.Step)
  {
    B.Enabled(s, step) && (step.Store? ==> s.pc == B.Compare(0))
  }

  ghost predicate QuietNext(limit: nat, s: B.State, s': B.State)
  {
    exists step :: QuietStep(s, step) && s' == B.Apply(limit, s, step)
  }

  ghost function QuietRel(limit: nat): (B.State, B.State) -> bool { (s, s') => QuietNext(limit, s, s') }

  /** The one-step monitor takes its poll when memcmp finds a difference, or finds none at the end. */
  ghost predicate Matches(limit: nat, s: B.State, a: A.State<seq<byte>>)
  {
    && a.hist != [] && Last(a.hist) == s.info && |s.local| == |s.info|
    && match s.pc
       case Compare(i) =>
         i <= |s.info| && s.local[..i] == s.info[..i] && a.local == s.local && |a.saved| == s.n && !a.stopped
       case Detected => a.local == s.info && |a.saved| == s.n + 1 && (a.stopped <==> s.n + 1 == limit)
       case Copy(i) =>
         i <= |s.info| && s.local[..i] == s.info[..i] && a.local == s.info && |a.saved| == s.n + 1
         && (a.stopped <==> s.n + 1 == limit)
       case Stopped => a.local == s.local && |a.saved| == s.n && a.stopped
  }

  /** The steps at which a poll has settled what it saw. */
  predicate PollPoint(s: B.State, s': B.State)
  {
    s.polls < s'.polls
  }

  /** The values of the shared memory that the polls of a run saw. */
  function Sampled(run: seq<B.State>): seq<seq<byte>>
  {
    if |run| <= 1 then []
    else
      var s, s' := run[|run| - 2], run[|run| - 1];
      Sampled(run[..|run| - 1]) + if PollPoint(s, s') then [s.info] else []
  }

  lemma Simulate(limit: nat, s: B.State, step: B.Step, a: A.State<seq<byte>>) returns (a': A.State<seq<byte>>)
    requires Matches(limit, s, a) && QuietStep(s, step)
    ensures Matches(limit, B.Apply(limit, s, step), a')
    ensures a' == a || A.Next(limit, a, a')
    ensures a'.samples == a.samples + if PollPoint(s, B.Apply(limit, s, step)) then [s.info] else []
  {
    var s' := B.Apply(limit, s, step);
    a' := a;
    if step.Store? {
      a' := A.Apply(limit, a, A.Update(s'.info));
      assert A.Next(limit, a, a');
    } else if s.pc.Compare? && (s.pc.i >= |s.info| || s.local[s.pc.i] != s.info[s.pc.i]) {
      assert s.pc.i >= |s.info| ==> s.local[..s.pc.i] == s.local && s.info[..s.pc.i] == s.info;
      a' := A.Apply(limit, a, A.Poll);
      assert A.Next(limit, a, a');
    } else if s.pc.Copy? && s.pc.i >= |s.info| {
      assert s.local[..s.pc.i] == s.local && s.info[..s.pc.i] == s.info;
    }
  }

  lemma {:induction false} QuietRunRefines(limit: nat, run: seq<B.State>, start: seq<byte>)
    returns (abs: seq<A.State<seq<byte>>>)
    requires IsRun(QuietRel(limit), run) && run[0] == B.Start(start, start)
    ensures IsRun(A.NextRel(limit), abs) && abs[0] == A.Start(start)
    ensures Matches(limit, Last(run), Last(abs)) && Last(abs).samples == Sampled(run)
    decreases |run|
  {
    if |run| == 1 {
      abs := [A.Start(start)];
    } else {
      var front := run[..|run| - 1];
      abs := QuietRunRefines(limit, front, start);
      assert QuietRel(limit)(run[|run| - 2], run[|run| - 1]);
      var step :| QuietStep(Last(front), step) && Last(run) == B.Apply(limit, Last(front), step);
      var a' := Simulate(limit, Last(front), step, Last(abs));
      if a' != Last(abs) {
        abs := ExtendRun(A.NextRel(limit), abs, a');
      }
    }
  }

  /** So between polls the local copy is the last of the de-stuttered samples, and as many differences have been
      counted as there are of them. A sample is a value the memory held at one moment; it can be half a message, unless
      the message is written without a poll in between (see PacedMessages). */
  lemma QuietMonitorSavesSamples(limit: nat, run: seq<B.State>, start: seq<byte>)
    requires IsRun(QuietRel(limit), run) && run[0] == B.Start(start, start)
    requires Last(run).pc == B.Compare(0) || Last(run).pc == B.Stopped
    ensures var saved := A.Destutter(start, Sampled(run));
            Last(run).n == |saved| && Last(run).local == if saved == [] then start else Last(saved)
  {
    var abs := QuietRunRefines(limit, run, start);
    A.SavedIsDestutteredHistory(limit, abs, start, |abs| - 1);
  }
}
