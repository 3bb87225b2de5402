/** The monitor's own loop over the shared memory and its local copy, with writers storing bytes between
    any two of its reads. `trace` is the run of ByteMonitor executed so far. */
module MonitorProcess {
  import opened Bytes
  import opened Runs
  import opened ByteMonitor

  /** The monitor is where it was. */
  ghost predicate SameMonitor(s: State, s': State)
  {
    s'.pc == s.pc && s'.local == s.local && s'.found == s.found && s'.copied == s.copied && s'.polls == s.polls
  }

  class Monitor {
    const limit: nat              // MONITORING_COUNT, FORK_NUM, or 0 for the monitor that never stops
    const info: array<byte>       // the shared memory
    const local: array<byte>
    var n: nat
    ghost var s: State
    ghost var trace: seq<State>

    ghost predicate Valid()
      reads this, info, local
    {
      && info != local && info.Length == local.Length
      && s.info == info[..] && s.local == local[..] && s.n == n
      && IsRun(NextRel(limit), trace) && Last(trace) == s
      && |trace[0].info| == |trace[0].local| && trace[0] == Start(trace[0].info, trace[0].local)
    }

    /** Both memories zeroed, as after the monitor's memset calls. */
    constructor (limit: nat, size: nat)
      ensures Valid() && this.limit == limit && info.Length == size && n == 0 && fresh(info) && fresh(local)
      ensures forall i :: 0 <= i < size ==> info[i] == local[i] == NUL
      ensures s.pc == Compare(0) && s.changes == 0 && s.polls == 0
    {
      this.limit := limit;
      info := new byte[size](_ => NUL);
      local := new byte[size](_ => NUL);
      n := 0;
      new;
      assert info[..] == local[..];
      s := Start(info[..], local[..]);
      trace := [s];
    }

    ghost method Took(step: Step)
      requires IsRun(NextRel(limit), trace) && Last(trace) == s && Enabled(s, step)
      modifies this`s, this`trace
      ensures s == Apply(limit, old(s), step)
      ensures IsRun(NextRel(limit), trace) && Last(trace) == s && trace[0] == old(trace[0])
    {
      assert Next(limit, s, Apply(limit, s, step));
      s := Apply(limit, s, step);
      trace := ExtendRun(NextRel(limit), trace, s);
    }

    /** Any number of writer stores, anywhere. */
    method Writers()
      requires Valid()
      modifies info, this`s, this`trace
      ensures Valid() && SameMonitor(old(s), s)
    {
      var stores: nat := *;
      while stores > 0
        invariant Valid() && SameMonitor(old(s), s)
      {
        var at: nat, bytes: seq<byte> := *, *;
        if at + |bytes| <= info.Length {
          Took(Store(at, bytes));
          forall i | 0 <= i < |bytes| {
            info[at + i] := bytes[i];
          }
        }
        stores := stores - 1;
      }
    }

    /** memcmp(&local, info, size) */
    method MemCmp() returns (differs: bool)
      requires Valid() && s.pc == Compare(0)
      modifies info, this`s, this`trace
      ensures Valid() && s.pc == (if differs then Detected else Compare(0)) && s.polls == old(s.polls) + 1
    {
      var i := 0;
      while i < info.Length
        invariant Valid() && i <= info.Length && s.pc == Compare(i) && s.polls == old(s.polls)
      {
        Writers();
        Took(Read);
        if local[i] != info[i] {
          return true;
        }
        i := i + 1;
      }
      Took(Read);
      return false;
    }

    /** memcpy(&local, info, size), and n++ */
    method Snapshot()
      requires Valid() && s.pc == Copy(0)
      modifies info, local, this
      ensures Valid() && n == old(n) + 1 && s.pc == (if n == limit then Stopped else Compare(0))
      ensures s.polls == old(s.polls)
    {
      var i := 0;
      while i < info.Length
        invariant Valid() && i <= info.Length && s.pc == Copy(i) && n == old(n) && s.polls == old(s.polls)
      {
        Writers();
        Took(Read);
        local[i] := info[i];
        i := i + 1;
      }
      Took(Read);
      n := n + 1;
    }

    /** `polls` passes of the monitor's endless loop, fewer when it stops at its limit. What it has counted by
        then never exceeds the stores by which the writers changed anything. */
    method Watch(polls: nat)
      requires Valid() && s.pc == Compare(0)
      modifies info, local, this
      ensures Valid() && (s.pc == Compare(0) || (s.pc == Stopped && limit > 0 && n == limit))
      ensures s.pc == Compare(0) ==> s.polls == old(s.polls) + polls
      ensures n <= s.changes
    {
      var left := polls;
      while left > 0
        invariant Valid() && s.pc == Compare(0) && s.polls + left == old(s.polls) + polls
      {
        var differs := MemCmp();
        if differs {
          Writers();
          Took(Read);  // the difference is printed
          Snapshot();
          if n == limit {
            break;
          }
        }
        left := left - 1;
      }
      MonitorBound(limit, trace, trace[0].info, trace[0].local, |trace| - 1);
    }
  }

  /** A poll that no writer disturbs: it finds a difference exactly when there is one, and then
      the local copy is the shared memory. This is the single step of AtomicMonitor. */
  method QuietPoll(local: array<byte>, info: array<byte>) returns (differs: bool)
    requires local.Length == info.Length && local != info
    modifies local
    ensures differs <==> old(local[..]) != info[..]
    ensures local[..] == info[..]
  {
    var i := 0;
    while i < info.Length && local[i] == info[i]
      invariant 0 <= i <= info.Length && local[..i] == info[..i]
    {
      i := i + 1;
    }
    differs := i < info.Length;
    if differs {
      assert local[..][i] != info[..][i];
      i := 0;
      while i < info.Length
        invariant 0 <= i <= info.Length && local[..i] == info[..i]
      {
        local[i] := info[i];
        i := i + 1;
      }
    }
    assert local[..] == local[..info.Length] == info[..info.Length] == info[..];
  }
}
