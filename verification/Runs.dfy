/** Runs of a transition system, and the two ways every module here reasons about them:
    an invariant kept by each step, and a measure that each step lowers. */
module Runs {
  ghost predicate IsRun<S(!new)>(next: (S, S) -> bool, run: seq<S>)
  {
    |run| > 0 && forall i :: 0 < i < |run| ==> next(run[i - 1], run[i])
  }

  function Last<S>(run: seq<S>): S
    requires |run| > 0
  {
    run[|run| - 1]
  }

  lemma {:induction false} InvariantHolds<S(!new)>(next: (S, S) -> bool, inv: S -> bool, run: seq<S>, k: nat)
    requires IsRun(next, run) && k < |run|
    requires inv(run[0])
    requires forall s, s' :: inv(s) && next(s, s') ==> inv(s')
    ensures inv(run[k])
  {
    if k == 0 {
    } else {
      InvariantHolds(next, inv, run, k - 1);
      assert next(run[k - 1], run[k]);
    }
  }

  /** If every step from an invariant state lowers `m`, a run has at most `m(first) - m(last)` steps. */
  lemma {:induction false} MeasureBoundsRun<S(!new)>(next: (S, S) -> bool, inv: S -> bool, m: S -> int, run: seq<S>)
    requires IsRun(next, run)
    requires inv(run[0])
    requires forall s, s' :: inv(s) && next(s, s') ==> inv(s') && m(s') < m(s)
    ensures |run| - 1 <= m(run[0]) - m(Last(run))
    decreases |run|
  {
    if |run| == 1 {
    } else {
      var shorter := run[..|run| - 1];
      MeasureBoundsRun(next, inv, m, shorter);
      InvariantHolds(next, inv, run, |run| - 2);
      assert next(run[|run| - 2], run[|run| - 1]);
    }
  }

  /** A run with one more step. */
  lemma ExtendRun<S(!new)>(next: (S, S) -> bool, run: seq<S>, s': S) returns (longer: seq<S>)
    requires IsRun(next, run) && next(Last(run), s')
    ensures longer == run + [s'] && IsRun(next, longer)
    ensures Last(longer) == s' && longer[0] == run[0]
  {
    longer := run + [s'];
    forall i | 0 < i < |longer| ensures next(longer[i - 1], longer[i]) {
      if i < |run| {
        assert next(run[i - 1], run[i]);
      }
    }
  }

  /** A run followed by one of a machine that is part of it. */
  lemma {:induction false} EmbedRun<S(!new), T(!new)>(inner: (S, S) -> bool, part: seq<S>, embed: S -> T,
                                                      outer: (T, T) -> bool, run: seq<T>) returns (longer: seq<T>)
    requires IsRun(inner, part) && IsRun(outer, run) && Last(run) == embed(part[0])
    requires forall s, s' :: inner(s, s') ==> outer(embed(s), embed(s'))
    ensures IsRun(outer, longer) && longer[0] == run[0] && Last(longer) == embed(Last(part))
    decreases |part|
  {
    if |part| == 1 {
      longer := run;
    } else {
      var front := part[..|part| - 1];
      longer := EmbedRun(inner, front, embed, outer, run);
      assert inner(Last(front), Last(part));
      longer := ExtendRun(outer, longer, embed(Last(part)));
    }
  }

  /** A measure that never grows can fall only as often as it has fallen by. */
  lemma {:induction false} FallsAreBounded(m: seq<int>, at: set<nat>)
    requires m != [] && forall k :: 0 < k < |m| ==> m[k] <= m[k - 1]
    requires forall k :: k in at ==> k + 1 < |m| && m[k + 1] < m[k]
    ensures |at| <= m[0] - m[|m| - 1]
    decreases |m|
  {
    if |m| == 1 {
      assert at == {};
    } else {
      var k := |m| - 2;
      FallsAreBounded(m[..k + 1], at - {k});
      assert at == (at - {k}) + if k in at then {k} else {};
    }
  }
}
