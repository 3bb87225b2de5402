/** The same monitor when a poll and an update are each one step, over any type of snapshot. */
module AtomicMonitor {
  import opened Runs

  /** `hist` is every value the shared memory has held, oldest first; `samples` what each poll saw; `saved`
      what it counted and `at` where in `hist` that was; `polled` says a poll has run since the last update. */
  datatype State<T> = State(hist: seq<T>, local: T, samples: seq<T>, saved: seq<T>, at: seq<nat>,
                            polled: bool, stopped: bool)

  function Start<T>(zero: T): State<T> { State([zero], zero, [], [], [], true, false) }

  datatype Step<T> = Update(v: T) | Poll

  predicate Enabled<T>(s: State<T>, step: Step<T>)
  {
    |s.hist| > 0 && (step.Poll? ==> !s.stopped)
  }

  function Apply<T(==)>(limit: nat, s: State<T>, step: Step<T>): State<T>
    requires Enabled(s, step)
  {
    match step
    case Update(v) => s.(hist := s.hist + [v], polled := false)
    case Poll =>
      var v := Last(s.hist);
      var seen := s.(samples := s.samples + [v], polled := true);
      if v == s.local then seen
      else seen.(local := v, saved := s.saved + [v], at := s.at + [|s.hist| - 1], stopped := |s.saved| + 1 == limit)
  }

  ghost predicate Next<T(!new)>(limit: nat, s: State<T>, s': State<T>)
  {
    exists step :: Enabled(s, step) && s' == Apply(limit, s, step)
  }

  ghost function NextRel<T(!new)>(limit: nat): (State<T>, State<T>) -> bool { (s, s') => Next(limit, s, s') }

  /** The samples without those equal to the one before them, starting from `last`. */
  function Destutter<T(==)>(last: T, samples: seq<T>): seq<T>
  {
    if samples == [] then []
    else if samples[0] == last then Destutter(last, samples[1..])
    else [samples[0]] + Destutter(samples[0], samples[1..])
  }

  lemma {:induction false} DestutterSnoc<T>(last: T, samples: seq<T>, v: T)
    ensures var d := Destutter(last, samples);
            Destutter(last, samples + [v]) == if v == (if d == [] then last else d[|d| - 1]) then d else d + [v]
  {
    if samples == [] {
      assert samples + [v] == [v];
    } else {
      assert (samples + [v])[1..] == samples[1..] + [v];
      DestutterSnoc(if samples[0] == last then last else samples[0], samples[1..], v);
    }
  }

  /** `saved` picks elements of `hist` in order, no two neighbours equal, beginning after the first. */
  ghost predicate Picks<T>(hist: seq<T>, saved: seq<T>, at: seq<nat>)
  {
    && |saved| == |at|
    && (forall k :: 0 <= k < |at| ==> 0 < at[k] < |hist| && saved[k] == hist[at[k]])
    && (forall k :: 0 < k < |at| ==> at[k - 1] < at[k] && saved[k - 1] != saved[k])
  }

  ghost predicate Inv<T(!new)>(zero: T, s: State<T>)
  {
    && s.hist != [] && s.hist[0] == zero && Picks(s.hist, s.saved, s.at)
    && s.saved == Destutter(zero, s.samples)
    && s.local == (if s.saved == [] then s.hist[0] else s.saved[|s.saved| - 1])
    && (s.at != [] ==> s.hist[s.at[|s.at| - 1]] == s.local)
  }

  ghost function InvFn<T(!new)>(zero: T): State<T> -> bool { s => Inv(zero, s) }

  lemma UpdateKeepsInv<T(!new)>(limit: nat, zero: T, s: State<T>, v: T)
    requires Inv(zero, s)
    ensures Inv(zero, Apply(limit, s, Update(v)))
  {
    var hist := s.hist + [v];
    assert forall k :: 0 <= k < |s.hist| ==> hist[k] == s.hist[k];
  }

  lemma PickLatest<T>(hist: seq<T>, saved: seq<T>, at: seq<nat>)
    requires Picks(hist, saved, at) && |hist| > 1
    requires at != [] ==> at[|at| - 1] < |hist| - 1 && saved[|saved| - 1] != Last(hist)
    ensures Picks(hist, saved + [Last(hist)], at + [|hist| - 1])
  {
    var saved', at' := saved + [Last(hist)], at + [|hist| - 1];
    forall k | 0 < k < |at'| ensures at'[k - 1] < at'[k] && saved'[k - 1] != saved'[k] {
      if k < |at| {
        assert at[k - 1] < at[k] && saved[k - 1] != saved[k];
      }
    }
  }

  lemma PollKeepsPicks<T(!new)>(limit: nat, zero: T, s: State<T>)
    requires Inv(zero, s) && !s.stopped
    ensures var s' := Apply(limit, s, Poll); Picks(s'.hist, s'.saved, s'.at)
  {
    if Last(s.hist) != s.local {
      assert s.at != [] ==> s.at[|s.at| - 1] < |s.hist| - 1;
      assert s.at == [] ==> |s.hist| > 1;
      PickLatest(s.hist, s.saved, s.at);
    }
  }

  lemma PollDestutters<T(!new)>(limit: nat, zero: T, s: State<T>)
    requires !s.stopped && s.hist != [] && s.saved == Destutter(zero, s.samples)
    requires s.local == (if s.saved == [] then zero else s.saved[|s.saved| - 1])
    ensures var s' := Apply(limit, s, Poll); s'.saved == Destutter(zero, s'.samples)
  {
    DestutterSnoc(zero, s.samples, Last(s.hist));
  }

  lemma PollKeepsInv<T(!new)>(limit: nat, zero: T, s: State<T>)
    requires Inv(zero, s) && !s.stopped
    ensures Inv(zero, Apply(limit, s, Poll))
  {
    PollKeepsPicks(limit, zero, s);
    PollDestutters(limit, zero, s);
  }

  /** What was saved is exactly the de-stuttered samples, and so a subsequence of the values written in
      which neighbours differ. */
  lemma SavedIsDestutteredHistory<T(!new)>(limit: nat, run: seq<State<T>>, zero: T, k: nat)
    requires IsRun(NextRel(limit), run) && run[0] == Start(zero) && k < |run|
    ensures run[k].saved == Destutter(zero, run[k].samples)
    ensures run[k].local == if run[k].saved == [] then zero else Last(run[k].saved)
    ensures Picks(run[k].hist, run[k].saved, run[k].at)
  {
    forall s: State<T>, s' | InvFn<T>(zero)(s) && NextRel<T>(limit)(s, s') ensures InvFn<T>(zero)(s') {
      var step :| Enabled(s, step) && s' == Apply(limit, s, step);
      match step {
        case Update(v) => UpdateKeepsInv(limit, zero, s, v);
        case Poll => PollKeepsInv(limit, zero, s);
      }
    }
    InvariantHolds(NextRel(limit), InvFn<T>(zero), run, k);
  }

  // ---- paced writers

  /** Each update changes the value, and a poll falls between any two updates. */
  ghost predicate Paced<T>(s: State<T>, step: Step<T>)
  {
    Enabled(s, step) && (step.Update? ==> s.polled && step.v != Last(s.hist))
  }

  ghost predicate PacedNext<T(!new)>(limit: nat, s: State<T>, s': State<T>)
  {
    exists step :: Paced(s, step) && s' == Apply(limit, s, step)
  }

  ghost function PacedRel<T(!new)>(limit: nat): (State<T>, State<T>) -> bool { (s, s') => PacedNext(limit, s, s') }

  /** The values whose turn has come: all of them after a poll, all but the latest before. */
  function Due<T>(s: State<T>): seq<T>
    requires s.hist != []
  {
    if s.polled then s.hist else s.hist[..|s.hist| - 1]
  }

  ghost predicate InStep<T>(limit: nat, s: State<T>)
  {
    && s.hist != [] && Due(s) != []
    && (!s.polled ==> Last(s.hist) != Last(Due(s)))
    && (!s.stopped ==> s.saved == Due(s)[1..] && s.local == Last(Due(s)) && (limit == 0 || |s.saved| < limit))
    && (s.stopped ==> 0 < limit < |s.hist| && s.saved == s.hist[1..limit + 1])
  }

  ghost function InStepFn<T>(limit: nat): State<T> -> bool { s => InStep(limit, s) }

  lemma PacedUpdate<T(!new)>(limit: nat, s: State<T>, v: T)
    requires InStep(limit, s) && Paced(s, Update(v))
    ensures InStep(limit, Apply(limit, s, Update(v)))
  {
    var s' := Apply(limit, s, Update(v));
    assert Due(s') == s.hist;
    assert s.stopped ==> s'.hist[1..limit + 1] == s.hist[1..limit + 1];
  }

  lemma PacedPoll<T(!new)>(limit: nat, s: State<T>)
    requires InStep(limit, s) && !s.stopped
    ensures InStep(limit, Apply(limit, s, Poll))
  {
    var s' := Apply(limit, s, Poll);
    if !s.polled {
      assert s.hist == Due(s) + [Last(s.hist)];
      assert s'.saved == s.hist[1..];
    }
  }

  lemma PacedRunsKeepInStep<T(!new)>(limit: nat, run: seq<State<T>>, zero: T)
    requires IsRun(PacedRel(limit), run) && run[0] == Start(zero)
    ensures InStep(limit, Last(run))
  {
    forall s: State<T>, s' | InStepFn<T>(limit)(s) && PacedRel<T>(limit)(s, s') ensures InStepFn<T>(limit)(s') {
      var step :| Paced(s, step) && s' == Apply(limit, s, step);
      match step {
        case Update(v) => PacedUpdate(limit, s, v);
        case Poll => PacedPoll(limit, s);
      }
    }
    InvariantHolds(PacedRel(limit), InStepFn<T>(limit), run, |run| - 1);
  }

  /** Completeness: with paced writers the monitor records every update once, in order, and stops exactly at the
      update that makes `limit` of them, or never when `limit` is 0. */
  lemma PacedMonitorIsComplete<T(!new)>(limit: nat, run: seq<State<T>>, zero: T)
    requires IsRun(PacedRel(limit), run) && run[0] == Start(zero)
    ensures var s := Last(run);
            && s.hist != []
            && (limit == 0 || |s.hist| - 1 < limit ==> !s.stopped)
            && (s.polled && !s.stopped ==> s.saved == s.hist[1..] && (limit == 0 || |s.saved| < limit))
            && (s.polled && |s.hist| - 1 == limit > 0 ==> s.stopped && s.saved == s.hist[1..])
  {
    PacedRunsKeepInStep(limit, run, zero);
    var s := Last(run);
    if |s.hist| - 1 == limit > 0 {
      assert s.hist[1..limit + 1] == s.hist[1..];
    }
  }
}
