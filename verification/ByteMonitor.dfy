/** The snapshot-diff monitor against writers that store into the shared memory at any time, a byte or a word at
    once: compare, print, copy, count, with each byte read of memcmp and memcpy a step of its own. */
module ByteMonitor {
  import opened Bytes
  import opened Runs

  /** `Compare(i)`: memcmp is about to look at byte i. `Detected`: it found a difference, which is being
      printed. `Copy(i)`: memcpy is about to move byte i. */
  datatype Pc = Compare(i: nat) | Detected | Copy(i: nat) | Stopped

  /** `polls` counts the finished memcmp calls, `changes` the writer stores that changed anything. `found` and
      `copied` are the latter count at each detection and at the start of each copy. */
  datatype State = State(info: seq<byte>, local: seq<byte>, pc: Pc, n: nat, polls: nat,
                         changes: nat, found: seq<nat>, copied: seq<nat>)

  /** A difference that is there before the first writer runs counts as one change. */
  function Start(info: seq<byte>, local: seq<byte>): State
  {
    State(info, local, Compare(0), 0, 0, if info == local then 0 else 1, [], [])
  }

  datatype Step = Store(at: nat, bytes: seq<byte>) | Read

  predicate Enabled(s: State, step: Step)
  {
    match step
    case Store(at, bytes) => at + |bytes| <= |s.info|
    case Read => !s.pc.Stopped? && |s.info| == |s.local|
  }

  /** The monitor's next step; it stops at its `limit`-th difference, never when `limit` is 0. */
  function MonitorStep(limit: nat, s: State): State
    requires !s.pc.Stopped? && |s.info| == |s.local|
  {
    match s.pc
    case Compare(i) =>
      if i >= |s.info| then s.(pc := Compare(0), polls := s.polls + 1)
      else if s.local[i] == s.info[i] then s.(pc := Compare(i + 1))
      else s.(pc := Detected, polls := s.polls + 1, found := s.found + [s.changes])
    case Detected => s.(pc := Copy(0), copied := s.copied + [s.changes])
    case Copy(i) =>
      if i >= |s.info| then s.(n := s.n + 1, pc := if s.n + 1 == limit then Stopped else Compare(0))
      else s.(local := s.local[i := s.info[i]], pc := Copy(i + 1))
  }

  function Apply(limit: nat, s: State, step: Step): State
    requires Enabled(s, step)
  {
    match step
    case Store(at, bytes) =>
      var info := Splice(s.info, at, bytes);
      s.(info := info, changes := s.changes + if info == s.info then 0 else 1)
    case Read => MonitorStep(limit, s)
  }

  ghost predicate Next(limit: nat, s: State, s': State)
  {
    exists step :: Enabled(s, step) && s' == Apply(limit, s, step)
  }

  ghost function NextRel(limit: nat): (State, State) -> bool { (s, s') => Next(limit, s, s') }

  /** The changes made before the latest copy began. */
  function Base(s: State): nat { if s.copied == [] then 0 else s.copied[|s.copied| - 1] }

  /** The detections are separated: between the start of one copy and the next detection something changed. */
  ghost predicate Charged(found: seq<nat>, copied: seq<nat>)
  {
    && |copied| <= |found| <= |copied| + 1
    && (found != [] ==> found[0] >= 1)
    && (forall k :: 0 <= k < |copied| ==> found[k] <= copied[k])
    && (forall k :: 0 < k < |found| ==> copied[k - 1] < found[k])
  }

  /** Bytes of the last snapshot, as far as it has been copied, that differ from the shared memory now. */
  ghost predicate DiffersBefore(s: State, k: int)
  {
    exists i :: 0 <= i < k && i < |s.local| && i < |s.info| && s.local[i] != s.info[i]
  }

  ghost predicate Inv(limit: nat, s: State)
  {
    && |s.local| == |s.info|
    && Charged(s.found, s.copied)
    && Base(s) <= s.changes
    && (limit > 0 ==> s.n <= limit && (s.n == limit ==> s.pc.Stopped?))
    && (match s.pc
        case Compare(i) =>
          i <= |s.info| && |s.found| == |s.copied| == s.n && (DiffersBefore(s, |s.info|) ==> Base(s) < s.changes)
        case Detected => |s.found| == |s.copied| + 1 == s.n + 1 && s.found[s.n] <= s.changes
        case Copy(i) =>
          i <= |s.info| && |s.found| == |s.copied| == s.n + 1 && (DiffersBefore(s, i) ==> Base(s) < s.changes)
        case Stopped => |s.found| == |s.copied| == s.n == limit)
  }

  ghost function InvFn(limit: nat): State -> bool { s => Inv(limit, s) }

  lemma StoreKeepsInv(limit: nat, s: State, at: nat, bytes: seq<byte>)
    requires Inv(limit, s) && at + |bytes| <= |s.info|
    ensures Inv(limit, Apply(limit, s, Store(at, bytes)))
  {
  }

  lemma ChargeOne(found: seq<nat>, copied: seq<nat>, changes: nat)
    requires Charged(found, copied) && |found| == |copied|
    requires (if copied == [] then 0 else copied[|copied| - 1]) < changes
    ensures Charged(found + [changes], copied)
  {
  }

  lemma DetectionKeepsInv(limit: nat, s: State)
    requires Inv(limit, s) && s.pc.Compare? && s.pc.i < |s.info| && s.local[s.pc.i] != s.info[s.pc.i]
    ensures Inv(limit, MonitorStep(limit, s))
  {
    assert DiffersBefore(s, |s.info|);
    ChargeOne(s.found, s.copied, s.changes);
  }

  lemma CompareKeepsInv(limit: nat, s: State)
    requires Inv(limit, s) && s.pc.Compare?
    ensures Inv(limit, MonitorStep(limit, s))
  {
    var i, s' := s.pc.i, MonitorStep(limit, s);
    if i < |s.info| && s.local[i] != s.info[i] {
      DetectionKeepsInv(limit, s);
    } else {
      assert s'.info == s.info && s'.local == s.local;
      assert DiffersBefore(s', |s'.info|) ==> DiffersBefore(s, |s.info|);
    }
  }

  lemma CopyKeepsInv(limit: nat, s: State)
    requires Inv(limit, s) && s.pc.Copy?
    ensures Inv(limit, MonitorStep(limit, s))
  {
    var i, s' := s.pc.i, MonitorStep(limit, s);
    if i < |s.info| && DiffersBefore(s', i + 1) {
      var j :| 0 <= j < i + 1 && s'.local[j] != s'.info[j];
      assert j != i && s.local[j] != s.info[j];
      assert DiffersBefore(s, i);
    }
  }

  lemma PrintKeepsInv(limit: nat, s: State)
    requires Inv(limit, s) && s.pc.Detected?
    ensures Inv(limit, MonitorStep(limit, s))
  {
    var s' := MonitorStep(limit, s);
    assert forall k :: 0 <= k < |s.copied| ==> s'.copied[k] == s.copied[k];
  }

  lemma ReadKeepsInv(limit: nat, s: State)
    requires Inv(limit, s) && !s.pc.Stopped?
    ensures Inv(limit, MonitorStep(limit, s))
  {
    match s.pc
    case Compare(_) => CompareKeepsInv(limit, s);
    case Detected => PrintKeepsInv(limit, s);
    case Copy(_) => CopyKeepsInv(limit, s);
  }

  lemma RunsKeepInv(limit: nat, run: seq<State>, info: seq<byte>, local: seq<byte>, k: nat)
    requires IsRun(NextRel(limit), run) && |info| == |local| && run[0] == Start(info, local) && k < |run|
    ensures Inv(limit, run[k])
  {
    forall s, s' | InvFn(limit)(s) && NextRel(limit)(s, s') ensures InvFn(limit)(s') {
      var step :| Enabled(s, step) && s' == Apply(limit, s, step);
      match step {
        case Store(at, bytes) => StoreKeepsInv(limit, s, at, bytes);
        case Read => ReadKeepsInv(limit, s);
      }
    }
    InvariantHolds(NextRel(limit), InvFn(limit), run, k);
  }

  /** k separated detections need k changes. */
  lemma {:induction false} ChargesAddUp(found: seq<nat>, copied: seq<nat>, k: nat)
    requires Charged(found, copied) && k < |found|
    ensures k + 1 <= found[k]
  {
    if k == 0 {
    } else {
      ChargesAddUp(found, copied, k - 1);
    }
  }

  lemma ReadLeavesMemory(limit: nat, s: State)
    requires Enabled(s, Read)
    ensures var s' := MonitorStep(limit, s);
            s'.info == s.info && s'.changes == s.changes && |s'.local| == |s.local|
  {
  }

  lemma CountBound(limit: nat, s: State)
    requires Inv(limit, s)
    ensures s.n <= |s.found| <= s.changes
  {
    if s.found != [] {
      ChargesAddUp(s.found, s.copied, |s.found| - 1);
      assert s.found[|s.found| - 1] <= s.changes;
    }
  }

  /** Every counted difference can be charged to a store of its own that changed something, made between
      the start of one copy and the next detection; so the count never exceeds the number of such stores,
      plus one for a difference that was there from the start. */
  lemma MonitorBound(limit: nat, run: seq<State>, info: seq<byte>, local: seq<byte>, k: nat)
    requires IsRun(NextRel(limit), run) && |info| == |local| && run[0] == Start(info, local) && k < |run|
    ensures Charged(run[k].found, run[k].copied)
    ensures run[k].n <= |run[k].found| <= run[k].changes
    ensures limit > 0 ==> run[k].n <= limit && (run[k].pc.Stopped? <==> run[k].n == limit)
  {
    RunsKeepInv(limit, run, info, local, k);
    CountBound(limit, run[k]);
  }

  // ---- polls without stores in between

  ghost predicate ReadNext(limit: nat, s: State, s': State)
  {
    Enabled(s, Read) && s' == MonitorStep(limit, s)
  }

  ghost function ReadRel(limit: nat): (State, State) -> bool { (s, s') => ReadNext(limit, s, s') }

  /** What undisturbed reads leave alone. */
  ghost predicate SameMemory(s: State, s': State)
  {
    s'.info == s.info && s'.changes == s.changes && |s'.local| == |s.local|
  }

  /** memcmp from byte i on, the bytes before having been found equal. */
  lemma {:induction false} Scan(limit: nat, run: seq<State>, i: nat) returns (run': seq<State>)
    requires IsRun(ReadRel(limit), run)
    requires var m := Last(run);
             m.pc == Compare(i) && i <= |m.info| == |m.local| && m.local[..i] == m.info[..i]
    ensures IsRun(ReadRel(limit), run') && run'[0] == run[0] && SameMemory(Last(run), Last(run'))
    ensures var (m, m') := (Last(run), Last(run'));
            && m'.local == m.local && m'.n == m.n && m'.polls == m.polls + 1
            && m'.pc == if m.local == m.info then Compare(0) else Detected
    decreases |Last(run).info| - i
  {
    var m := Last(run);
    run' := ExtendRun(ReadRel(limit), run, MonitorStep(limit, m));
    if i == |m.info| {
      assert m.local[..i] == m.local && m.info[..i] == m.info;
    } else if m.local[i] == m.info[i] {
      run' := Scan(limit, run', i + 1);
    }
  }

  /** memcpy from byte i on, and the count. */
  lemma {:induction false} CopyOn(limit: nat, run: seq<State>, i: nat) returns (run': seq<State>)
    requires IsRun(ReadRel(limit), run)
    requires var m := Last(run);
             m.pc == Copy(i) && i <= |m.info| == |m.local| && m.local[..i] == m.info[..i]
    ensures IsRun(ReadRel(limit), run') && run'[0] == run[0] && SameMemory(Last(run), Last(run'))
    ensures var (m, m') := (Last(run), Last(run'));
            && m'.local == m.info && m'.n == m.n + 1 && m'.polls == m.polls
            && m'.pc == if m'.n == limit then Stopped else Compare(0)
    decreases |Last(run).info| - i
  {
    var m := Last(run);
    run' := ExtendRun(ReadRel(limit), run, MonitorStep(limit, m));
    if i == |m.info| {
      assert m.local[..i] == m.local && m.info[..i] == m.info;
    } else {
      run' := CopyOn(limit, run', i + 1);
    }
  }

  /** A whole undisturbed poll. */
  lemma Poll(limit: nat, s: State) returns (run: seq<State>)
    requires s.pc == Compare(0) && |s.info| == |s.local|
    ensures IsRun(ReadRel(limit), run) && run[0] == s && SameMemory(s, Last(run))
    ensures var s' := Last(run);
            && s'.local == s.info && s'.polls == s.polls + 1
            && s'.n == s.n + (if s.local == s.info then 0 else 1)
            && s'.pc == if s.local != s.info && s'.n == limit then Stopped else Compare(0)
  {
    run := Scan(limit, [s], 0);
    if s.local != s.info {
      run := ExtendRun(ReadRel(limit), run, MonitorStep(limit, Last(run)));
      run := CopyOn(limit, run, 0);
    }
  }

  /** Between polls: every change has been counted, up to n of them. */
  ghost predicate Settled(limit: nat, s: State, n: nat)
  {
    && |s.local| == |s.info| && s.n == Min(n, s.changes)
    && (s.n < n ==> s.pc == Compare(0) && s.local == s.info)
    && (s.n == n && (limit == 0 || n < limit) ==> s.pc == Compare(0))
  }

  /** A store, and then a poll unless the count is n already. */
  lemma PollAfterStore(limit: nat, s: State, at: nat, bytes: seq<byte>, n: nat) returns (run: seq<State>)
    requires Settled(limit, s, n) && at + |bytes| <= |s.info| && (limit > 0 ==> n <= limit)
    ensures var stored := Apply(limit, s, Store(at, bytes));
            IsRun(ReadRel(limit), run) && run[0] == stored && SameMemory(stored, Last(run))
    ensures Settled(limit, Last(run), n)
  {
    var stored := Apply(limit, s, Store(at, bytes));
    if s.n < n {
      run := Poll(limit, stored);
    } else {
      run := [stored];
    }
  }
}
