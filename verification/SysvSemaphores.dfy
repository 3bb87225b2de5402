/** The System V semaphore set: five semaphores, alternately binary and counting. */
module SysvSemaphores {
  import opened Runs
  import opened Sums

  const SEM_NUM := 5
  const SEM_COUNT := 5
  const SEM_BINARY := 1
  const SEMVMX := 32767  // the kernel's limit on a semaphore's value

  /** The value semaphore `i` (counted from 0) is initialised to. */
  function InitialValue(i: nat): int { if (i + 1) % 2 == 0 then SEM_COUNT else SEM_BINARY }

  /** sem_num is an unsigned short: the index typed by the user is cut to 16 bits. */
  function SemNum(index: int): nat { index % 0x1_0000 }

  /** An index below 65536 names the semaphore of that number; others name it 65536 at a time. */
  lemma SemNumIsIndex(index: int, k: int)
    ensures 0 <= index < 65536 ==> SemNum(index) == index
    ensures SemNum(index + 65536 * k) == SemNum(index)
  {
    assert index + 65536 * k == 65536 * (index / 65536 + k) + index % 65536;
  }

  datatype Outcome = Completes | Blocks | Fails

  /** semop() with one operation and no flags: what it does to the values when it does not block or fail. */
  function SemOp(vals: seq<int>, num: nat, op: int): (Outcome, seq<int>)
  {
    if num >= |vals| then (Fails, vals)
    else if op == 0 then (if vals[num] == 0 then Completes else Blocks, vals)
    else if vals[num] + op < 0 then (Blocks, vals)
    else if vals[num] + op > SEMVMX then (Fails, vals)
    else (Completes, vals[num := vals[num] + op])
  }

  class SemaphoreSet {
    const vals: array<int>

    ghost predicate Valid()
      reads this, vals
    {
      vals.Length == SEM_NUM && forall i :: 0 <= i < vals.Length ==> 0 <= vals[i] <= SEMVMX
    }

    constructor ()
      ensures Valid() && fresh(vals) && vals[..] == [0, 0, 0, 0, 0]
    {
      vals := new int[SEM_NUM](_ => 0);
    }

    method Init()
      requires Valid()
      modifies vals
      ensures Valid() && forall i :: 0 <= i < SEM_NUM ==> vals[i] == InitialValue(i)
      ensures vals[..] == [1, 5, 1, 5, 1]
    {
      for i := 1 to SEM_NUM + 1
        invariant forall j :: 0 <= j < i - 1 ==> vals[j] == InitialValue(j)
      {
        if i % 2 == 0 {
          vals[i - 1] := SEM_COUNT;
        } else {
          vals[i - 1] := SEM_BINARY;
        }
      }
    }

    method Operate(num: nat, op: int) returns (r: Outcome)
      requires Valid()
      modifies vals
      ensures Valid() && (r, vals[..]) == SemOp(old(vals[..]), num, op)
    {
      if num >= vals.Length {
        return Fails;
      }
      if op == 0 {
        return if vals[num] == 0 then Completes else Blocks;
      }
      if vals[num] + op < 0 {
        return Blocks;
      }
      if vals[num] + op > SEMVMX {
        return Fails;
      }
      vals[num] := vals[num] + op;
      return Completes;
    }

    /** The index the user typed is cut to 16 bits, which leaves one inside the set as it is. A get completes
        exactly when the semaphore that names exists and has a permit; it then takes one permit of that semaphore,
        and otherwise nothing. */
    method Get(index: int) returns (r: Outcome)
      requires Valid()
      modifies vals
      ensures Valid() && (r, vals[..]) == SemOp(old(vals[..]), SemNum(index), -1)
      ensures r.Fails? <==> SemNum(index) >= SEM_NUM
      ensures r.Completes? <==> SemNum(index) < SEM_NUM && old(vals[..])[SemNum(index)] >= 1
      ensures r.Completes? ==> vals[SemNum(index)] == old(vals[..])[SemNum(index)] - 1
      ensures 0 <= index < SEM_NUM ==>
                if old(vals[..])[index] >= 1
                then r.Completes? && vals[..] == old(vals[..])[index := old(vals[..])[index] - 1]
                else r.Blocks? && vals[..] == old(vals[..])
      ensures forall i :: 0 <= i < SEM_NUM && (r.Completes? ==> i != SemNum(index)) ==> vals[i] == old(vals[i])
    {
      SemNumIsIndex(index, 0);
      r := Operate(SemNum(index), -1);
    }

    /** A release never blocks. It completes exactly for an index inside the set whose semaphore is below the kernel's
        limit; it then gives one permit to that semaphore, and otherwise nothing. */
    method Release(index: int) returns (r: Outcome)
      requires Valid()
      modifies vals
      ensures Valid() && (r, vals[..]) == SemOp(old(vals[..]), SemNum(index), 1)
      ensures r == if SemNum(index) < SEM_NUM && old(vals[..])[SemNum(index)] < SEMVMX then Completes else Fails
      ensures r.Completes? ==> vals[SemNum(index)] == old(vals[..])[SemNum(index)] + 1
      ensures 0 <= index < SEM_NUM ==>
                if old(vals[..])[index] < 32767
                then r.Completes? && vals[..] == old(vals[..])[index := old(vals[..])[index] + 1]
                else r.Fails? && vals[..] == old(vals[..])
      ensures forall i :: 0 <= i < SEM_NUM && (r.Completes? ==> i != SemNum(index)) ==> vals[i] == old(vals[i])
    {
      SemNumIsIndex(index, 0);
      r := Operate(SemNum(index), 1);
    }

    method Wait(index: int) returns (r: Outcome)
      requires Valid()
      ensures r == SemOp(vals[..], SemNum(index), 0).0
      ensures r.Completes? <==> SemNum(index) < SEM_NUM && vals[SemNum(index)] == 0
      ensures 0 <= index < SEM_NUM ==> r == if vals[index] == 0 then Completes else Blocks
    {
      SemNumIsIndex(index, 0);
      var num := SemNum(index);
      r := if num >= vals.Length then Fails else if vals[num] == 0 then Completes else Blocks;
    }
  }

  // ---- clients

  /** `held[i]` is what a client has got and not yet released of semaphore i. */
  datatype Client = Client(held: seq<int>)

  datatype State = State(vals: seq<int>, clients: seq<Client>, gets: seq<nat>, releases: seq<nat>)

  function Start(clients: nat): State
  {
    State(seq(SEM_NUM, i requires 0 <= i => InitialValue(i)),
          seq(clients, _ => Client(seq(SEM_NUM, _ => 0))),
          seq(SEM_NUM, _ => 0), seq(SEM_NUM, _ => 0))
  }

  /** A completed call by client `p`: `op` is -1, 0 or 1. Calls that block or fail change nothing. */
  datatype Step = Call(p: nat, index: int, op: int)

  predicate WellFormed(s: State)
  {
    && |s.vals| == |s.gets| == |s.releases| == SEM_NUM
    && forall p :: 0 <= p < |s.clients| ==> |s.clients[p].held| == SEM_NUM
  }

  predicate Enabled(s: State, step: Step)
  {
    && WellFormed(s) && step.p < |s.clients| && -1 <= step.op <= 1
    && SemOp(s.vals, SemNum(step.index), step.op).0.Completes?
  }

  function Apply(s: State, step: Step): State
    requires Enabled(s, step)
  {
    var num, c := SemNum(step.index), s.clients[step.p];
    s.(vals := SemOp(s.vals, num, step.op).1,
       clients := s.clients[step.p := Client(c.held[num := c.held[num] - step.op])],
       gets := if step.op == -1 then s.gets[num := s.gets[num] + 1] else s.gets,
       releases := if step.op == 1 then s.releases[num := s.releases[num] + 1] else s.releases)
  }

  ghost predicate Next(s: State, s': State)
  {
    exists step :: Enabled(s, step) && s' == Apply(s, step)
  }

  ghost function NextRel(): (State, State) -> bool { (s, s') => Next(s, s') }

  function HeldOf(i: nat): Client -> int { (c: Client) => if i < |c.held| then c.held[i] else 0 }

  ghost predicate Inv(s: State)
  {
    && WellFormed(s)
    && forall i :: 0 <= i < SEM_NUM ==>
         && s.vals[i] == InitialValue(i) + s.releases[i] - s.gets[i] && 0 <= s.vals[i] <= SEMVMX
         && SumOf(HeldOf(i), s.clients) + s.releases[i] == s.gets[i]
  }

  ghost function InvFn(): State -> bool { s => Inv(s) }

  lemma {:induction false} NothingHeld(cs: seq<Client>, i: nat)
    requires forall p :: 0 <= p < |cs| ==> i < |cs[p].held| && cs[p].held[i] == 0
    ensures SumOf(HeldOf(i), cs) == 0
  {
    if cs == [] {
    } else {
      NothingHeld(cs[1..], i);
    }
  }

  lemma StartInv(clients: nat)
    ensures Inv(Start(clients))
  {
    forall i | 0 <= i < SEM_NUM ensures SumOf(HeldOf(i), Start(clients).clients) == 0 {
      NothingHeld(Start(clients).clients, i);
    }
  }

  lemma StepKeepsInv(s: State, step: Step)
    requires Inv(s) && Enabled(s, step)
    ensures Inv(Apply(s, step))
  {
    var s' := Apply(s, step);
    forall i | 0 <= i < SEM_NUM
      ensures s'.vals[i] == InitialValue(i) + s'.releases[i] - s'.gets[i] && 0 <= s'.vals[i] <= SEMVMX
      ensures SumOf(HeldOf(i), s'.clients) + s'.releases[i] == s'.gets[i]
    {
      SumUpdate(HeldOf(i), s.clients, step.p, s'.clients[step.p]);
    }
  }

  /** Conservation over every run: each value is its initial value plus completed releases minus completed
      gets, never negative or above the kernel's limit, and together with what the clients hold it is always the
      initial value. */
  lemma SemaphoreConservation(clients: nat, run: seq<State>, k: nat, i: nat)
    requires IsRun(NextRel(), run) && run[0] == Start(clients) && k < |run| && i < SEM_NUM
    ensures WellFormed(run[k])
    ensures run[k].vals[i] == InitialValue(i) + run[k].releases[i] - run[k].gets[i]
    ensures 0 <= run[k].vals[i] <= SEMVMX
    ensures run[k].vals[i] + SumOf(HeldOf(i), run[k].clients) == InitialValue(i)
  {
    forall s, s' | InvFn()(s) && NextRel()(s, s') ensures InvFn()(s') {
      var step :| Enabled(s, step) && s' == Apply(s, step);
      StepKeepsInv(s, step);
    }
    StartInv(clients);
    InvariantHolds(NextRel(), InvFn(), run, k);
  }

  // ---- clients that release only what they hold

  ghost predicate FairNext(s: State, s': State)
  {
    exists step ::
      && Enabled(s, step) && s' == Apply(s, step)
      && (step.op == 1 ==> s.clients[step.p].held[SemNum(step.index)] > 0)
  }

  ghost function FairRel(): (State, State) -> bool { (s, s') => FairNext(s, s') }

  ghost predicate NoDebts(s: State)
  {
    && WellFormed(s)
    && forall p, i :: 0 <= p < |s.clients| && 0 <= i < SEM_NUM ==> s.clients[p].held[i] >= 0
  }

  ghost function NoDebtsFn(): State -> bool { s => NoDebts(s) }

  function Holder(i: nat): Client -> int { (c: Client) => if i < |c.held| && c.held[i] > 0 then 1 else 0 }

  lemma {:induction false} HoldersAtMostHeld(cs: seq<Client>, i: nat)
    requires forall p :: 0 <= p < |cs| ==> i < |cs[p].held| && cs[p].held[i] >= 0
    ensures 0 <= SumOf(Holder(i), cs) <= SumOf(HeldOf(i), cs)
  {
    if cs == [] {
    } else {
      assert i < |cs[0].held| && cs[0].held[i] >= 0;
      HoldersAtMostHeld(cs[1..], i);
    }
  }

  lemma {:induction false} TwoHolders(cs: seq<Client>, i: nat, p: nat, q: nat)
    requires p < q < |cs| && Holder(i)(cs[p]) == 1 && Holder(i)(cs[q]) == 1
    requires forall r :: 0 <= r < |cs| ==> i < |cs[r].held| && cs[r].held[i] >= 0
    ensures SumOf(Holder(i), cs) >= 2
  {
    var cs' := cs[q := Client(cs[q].held[i := 0])];
    var cs'' := cs'[p := Client(cs[p].held[i := 0])];
    SumUpdate(Holder(i), cs, q, cs'[q]);
    SumUpdate(Holder(i), cs', p, cs''[p]);
    HoldersAtMostHeld(cs'', i);
  }

  lemma FairRunIsRun(run: seq<State>)
    requires IsRun(FairRel(), run)
    ensures IsRun(NextRel(), run)
  {
    forall k | 0 < k < |run| ensures NextRel()(run[k - 1], run[k]) {
      assert FairRel()(run[k - 1], run[k]);
    }
  }

  /** If clients release only what they hold, never more of them hold a semaphore than its initial value, a
      binary one is a mutual exclusion, and wait-for-zero completes only when every permit is held. */
  lemma HoldersAreBounded(clients: nat, run: seq<State>, k: nat, i: nat)
    requires IsRun(FairRel(), run) && run[0] == Start(clients) && k < |run| && i < SEM_NUM
    ensures WellFormed(run[k])
    ensures SumOf(Holder(i), run[k].clients) <= InitialValue(i)
    ensures InitialValue(i) == SEM_BINARY ==>
              forall p, q :: 0 <= p < q < |run[k].clients| ==>
                !(run[k].clients[p].held[i] > 0 && run[k].clients[q].held[i] > 0)
    ensures forall step :: Enabled(run[k], step) && step.op == 0 && SemNum(step.index) == i ==>
              SumOf(HeldOf(i), run[k].clients) == InitialValue(i)
  {
    forall s, s' | NoDebtsFn()(s) && FairRel()(s, s') ensures NoDebtsFn()(s') {
    }
    InvariantHolds(FairRel(), NoDebtsFn(), run, k);
    FairRunIsRun(run);
    SemaphoreConservation(clients, run, k, i);
    HoldersAtMostHeld(run[k].clients, i);
    forall p, q | 0 <= p < q < |run[k].clients| && InitialValue(i) == SEM_BINARY
      ensures !(run[k].clients[p].held[i] > 0 && run[k].clients[q].held[i] > 0)
    {
      if run[k].clients[p].held[i] > 0 && run[k].clients[q].held[i] > 0 {
        TwoHolders(run[k].clients, i, p, q);
      }
    }
  }
}
