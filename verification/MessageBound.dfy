/** When the snapshot-diff monitor's count is bounded by messages: in any run, with writers anywhere, as long as
    no detection falls between the first and the last changed byte of a message. */
module MessageBound {
  import opened Bytes
  import opened Runs
  import opened ByteMonitor

  /** Step k of the run changes a byte of the shared memory. */
  predicate Changes(run: seq<State>, k: int) { 0 <= k && k + 1 < |run| && run[k].changes < run[k + 1].changes }

  /** At step k memcmp finds a difference. */
  predicate Detects(run: seq<State>, k: int) { 0 <= k && k + 1 < |run| && |run[k].found| < |run[k + 1].found| }

  /** `message[k]` names the message that a store at step k belongs to. No message is split by a detection. */
  ghost predicate Unsplit(run: seq<State>, message: seq<nat>)
  {
    && |run| <= |message| + 1
    && forall i, d, j :: i < d < j && Changes(run, i) && Detects(run, d) && Changes(run, j) ==> message[i] != message[j]
  }

  /** The messages that change anything. */
  function Changing(run: seq<State>, message: seq<nat>): set<nat>
    requires |run| <= |message| + 1
  {
    set k | 0 <= k < |run| - 1 && Changes(run, k) :: message[k]
  }

  lemma StepFacts(limit: nat, s: State, s': State)
    requires Inv(limit, s) && Next(limit, s, s')
    ensures |s.found| <= |s'.found| <= |s.found| + 1 && s.changes <= s'.changes <= s.changes + 1
    ensures |s'.found| == |s.found| ==> s'.found == s.found
    ensures |s'.found| > |s.found| ==> s'.found == s.found + [s.changes] && s'.changes == s.changes
    ensures |s'.found| > |s.found| ==> s.changes > LastFound(s)
  {
    var step :| Enabled(s, step) && s' == Apply(limit, s, step);
    if |s'.found| > |s.found| {
      assert s.pc.Compare? && s.local[s.pc.i] != s.info[s.pc.i];
      assert DiffersBefore(s, |s.info|);
    }
  }

  /** The change count at the latest detection. */
  function LastFound(s: State): nat { if s.found == [] then 0 else s.found[|s.found| - 1] }

  lemma {:induction false} FoundGrows(limit: nat, run: seq<State>, start: seq<byte>, i: nat, j: nat)
    requires IsRun(NextRel(limit), run) && run[0] == Start(start, start) && i <= j < |run|
    ensures |run[i].found| <= |run[j].found|
    ensures |run[i].found| < |run[j].found| ==> exists d :: i <= d < j && Detects(run, d)
    decreases j
  {
    if i == j {
    } else {
      FoundGrows(limit, run, start, i, j - 1);
      RunsKeepInv(limit, run, start, start, j - 1);
      assert NextRel(limit)(run[j - 1], run[j]);
      StepFacts(limit, run[j - 1], run[j]);
      if |run[j - 1].found| < |run[j].found| {
        assert Detects(run, j - 1);
      }
    }
  }

  /** Step q changes a byte after exactly k detections. */
  predicate ChangesAfter(run: seq<State>, q: int, k: nat) { Changes(run, q) && |run[q].found| == k }

  /** `at` names a changing step for each detection, made since the one before. */
  ghost predicate Charges(run: seq<State>, last: State, at: seq<nat>)
  {
    && |at| == |last.found|
    && (forall k :: 0 <= k < |at| ==> ChangesAfter(run, at[k], k))
    && (last.changes > LastFound(last) ==> exists q :: ChangesAfter(run, q, |last.found|))
  }

  lemma ChargeStep(limit: nat, run: seq<State>, start: seq<byte>, j: nat, at: seq<nat>) returns (at': seq<nat>)
    requires IsRun(NextRel(limit), run) && run[0] == Start(start, start) && j + 1 < |run|
    requires Charges(run, run[j], at)
    ensures Charges(run, run[j + 1], at')
  {
    var s, s' := run[j], run[j + 1];
    RunsKeepInv(limit, run, start, start, j);
    assert NextRel(limit)(s, s');
    StepFacts(limit, s, s');
    if |s'.found| > |s.found| {
      var q: nat :| ChangesAfter(run, q, |s.found|);
      at' := at + [q];
      assert LastFound(s') == s.changes;
    } else {
      at' := at;
      assert s'.changes > s.changes ==> ChangesAfter(run, j, |s.found|);
      assert s'.found == s.found;
    }
  }

  lemma ChargeRun(limit: nat, run: seq<State>, start: seq<byte>) returns (at: seq<nat>)
    requires IsRun(NextRel(limit), run) && run[0] == Start(start, start)
    ensures Charges(run, Last(run), at)
  {
    at := [];
    for j := 0 to |run| - 1
      invariant Charges(run, run[j], at)
    {
      at := ChargeStep(limit, run, start, j, at);
    }
  }

  /** Changes made before and after a detection belong to different messages. */
  lemma ChargedApart(limit: nat, run: seq<State>, start: seq<byte>, message: seq<nat>, k: nat, q: nat, k': nat, q': nat)
    requires IsRun(NextRel(limit), run) && run[0] == Start(start, start) && Unsplit(run, message)
    requires ChangesAfter(run, q, k) && ChangesAfter(run, q', k') && k < k'
    ensures message[q] != message[q']
  {
    if q' <= q {
      FoundGrows(limit, run, start, q', q);
    } else {
      FoundGrows(limit, run, start, q, q');
      var d :| q <= d < q' && Detects(run, d);
      RunsKeepInv(limit, run, start, start, q);
      assert NextRel(limit)(run[q], run[q + 1]);
      StepFacts(limit, run[q], run[q + 1]);
      assert d != q;
    }
  }

  lemma {:induction false} DistinctFit(names: seq<nat>, all: set<nat>)
    requires forall i :: 0 <= i < |names| ==> names[i] in all
    requires forall i, j :: 0 <= i < j < |names| ==> names[i] != names[j]
    ensures |names| <= |all|
  {
    if names == [] {
    } else {
      DistinctFit(names[1..], all - {names[0]});
    }
  }

  /** Then the count is at most the number of messages that changed anything, whoever wrote them and whenever. */
  lemma CountedPerMessage(limit: nat, run: seq<State>, start: seq<byte>, message: seq<nat>)
    requires IsRun(NextRel(limit), run) && run[0] == Start(start, start) && Unsplit(run, message)
    ensures Last(run).n <= |Changing(run, message)|
  {
    var at := ChargeRun(limit, run, start);
    var names := seq(|at|, k requires 0 <= k < |at| => assert ChangesAfter(run, at[k], k); message[at[k]]);
    forall k | 0 <= k < |names| ensures names[k] in Changing(run, message) {
      assert ChangesAfter(run, at[k], k);
    }
    forall k, k' | 0 <= k < k' < |names| ensures names[k] != names[k'] {
      assert ChangesAfter(run, at[k], k) && ChangesAfter(run, at[k'], k');
      ChargedApart(limit, run, start, message, k, at[k], k', at[k']);
    }
    DistinctFit(names, Changing(run, message));
    RunsKeepInv(limit, run, start, start, |run| - 1);
  }
}
