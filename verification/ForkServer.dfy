/** The forking echo server: a parent that accepts, forks and closes, and one child per connection
    running do_echo, all interleaved with each other and with the clients. A child is followed up to
    its return from do_echo. */
module ForkServer {
  import opened Runs
  import opened Sums
  import EchoLink

  datatype Descriptor = Listening | Conn(id: nat)

  /** Where the parent stands in its loop. `Forking`: accept() returned. `Closing`: fork() returned > 0. */
  datatype Parent = Accepting | Forking | Closing | Exited

  /** `Starting`: about to close the listening socket. `Returned`: do_echo saw end of stream. */
  datatype ChildPc = Starting | Echoing | Returned

  datatype Process = Process(pc: ChildPc, conn: nat, fds: set<Descriptor>)

  /** Connection i is `links[i]`; child i was forked for it. */
  datatype State = State(parent: Parent, parentFds: set<Descriptor>, children: seq<Process>, links: seq<EchoLink.Link>)

  const START := State(Accepting, {Listening}, [], [])

  datatype Step =
    | Accept
    | Fork
    | ForkFails
    | ParentCloses
    | ChildClosesListening(i: nat)
    | ChildEchoes(i: nat, step: EchoLink.Step)
    | ClientMoves(i: nat, step: EchoLink.Step)

  predicate Enabled(c: EchoLink.Config, s: State, step: Step)
  {
    match step
    case Accept => s.parent.Accepting?
    case Fork => s.parent.Forking? && |s.links| > 0
    case ForkFails => s.parent.Forking?
    case ParentCloses => s.parent.Closing? && |s.links| > 0
    case ChildClosesListening(i) => i < |s.children| && s.children[i].pc.Starting?
    case ChildEchoes(i, step) =>
      && i < |s.children| && s.children[i].pc.Echoing? && s.children[i].conn < |s.links|
      && Conn(s.children[i].conn) in s.children[i].fds
      && EchoLink.ServerStep(step) && EchoLink.Enabled(c, s.links[s.children[i].conn], step)
    case ClientMoves(i, step) =>
      && i < |s.links| && !EchoLink.ServerStep(step) && EchoLink.Enabled(c, s.links[i], step)
  }

  function Apply(c: EchoLink.Config, s: State, step: Step): State
    requires Enabled(c, s, step)
  {
    match step
    case Accept =>
      s.(parent := Forking, parentFds := s.parentFds + {Conn(|s.links|)}, links := s.links + [EchoLink.FRESH_LINK])
    case Fork =>
      // the child starts with a copy of all the parent's descriptors
      s.(parent := Closing, children := s.children + [Process(Starting, |s.links| - 1, s.parentFds)])
    case ForkFails => s.(parent := Exited, parentFds := {})
    case ParentCloses => s.(parent := Accepting, parentFds := s.parentFds - {Conn(|s.links| - 1)})
    case ChildClosesListening(i) =>
      var p := s.children[i];
      s.(children := s.children[i := p.(pc := Echoing, fds := p.fds - {Listening})])
    case ChildEchoes(i, step) =>
      var p := s.children[i];
      s.(links := s.links[p.conn := EchoLink.Apply(c, s.links[p.conn], step)],
         children := s.children[i := if step.ServerEof? then p.(pc := Returned) else p])
    case ClientMoves(i, step) => s.(links := s.links[i := EchoLink.Apply(c, s.links[i], step)])
  }

  ghost predicate Next(c: EchoLink.Config, s: State, s': State)
  {
    exists step :: Enabled(c, s, step) && s' == Apply(c, s, step)
  }

  ghost function NextRel(c: EchoLink.Config): (State, State) -> bool { (s, s') => Next(c, s, s') }

  // ---- descriptors

  /** The parent holds the listening socket, and a connection only between accept() and its own close(). */
  function ParentHolds(s: State): set<Descriptor>
  {
    match s.parent
    case Accepting => {Listening}
    case Exited => {}
    case _ => if |s.links| > 0 then {Listening, Conn(|s.links| - 1)} else {Listening}
  }

  /** Child i holds its own connection, and the listening socket until it closes that. */
  function ChildHolds(i: nat, pc: ChildPc): set<Descriptor>
  {
    if pc.Starting? then {Listening, Conn(i)} else {Conn(i)}
  }

  ghost predicate Inv(s: State)
  {
    && s.parentFds == ParentHolds(s)
    && |s.links| == |s.children| + (if s.parent.Forking? || s.parent.Exited? then 1 else 0)
    && (s.parent.Closing? ==> |s.links| > 0)
    && (forall i :: 0 <= i < |s.children| ==> s.children[i].conn == i)
    && (forall i :: 0 <= i < |s.children| ==> s.children[i].fds == ChildHolds(i, s.children[i].pc))
    && (forall i :: 0 <= i < |s.children| ==> (s.children[i].pc.Returned? <==> s.links[i].served))
    && (forall i :: |s.children| <= i < |s.links| ==> !s.links[i].served)
  }

  ghost function InvFn(): State -> bool { s => Inv(s) }

  lemma ParentKeepsInv(c: EchoLink.Config, s: State, step: Step)
    requires Inv(s) && Enabled(c, s, step)
    requires step.Accept? || step.Fork? || step.ForkFails? || step.ParentCloses?
    ensures Inv(Apply(c, s, step))
  {
  }

  lemma ChildKeepsInv(c: EchoLink.Config, s: State, step: Step)
    requires Inv(s) && Enabled(c, s, step)
    requires step.ChildClosesListening? || step.ChildEchoes?
    ensures Inv(Apply(c, s, step))
  {
    assert s.children[step.i].conn == step.i && s.children[step.i].fds == ChildHolds(step.i, s.children[step.i].pc);
  }

  lemma StepKeepsInv(c: EchoLink.Config, s: State, step: Step)
    requires Inv(s) && Enabled(c, s, step)
    ensures Inv(Apply(c, s, step))
  {
    match step
    case ClientMoves(_, _) =>
    case ChildClosesListening(_) => ChildKeepsInv(c, s, step);
    case ChildEchoes(_, _) => ChildKeepsInv(c, s, step);
    case _ => ParentKeepsInv(c, s, step);
  }

  lemma RunsKeepInv(c: EchoLink.Config, run: seq<State>, k: nat)
    requires IsRun(NextRel(c), run) && run[0] == START && k < |run|
    ensures Inv(run[k])
  {
    forall s, s' | InvFn()(s) && NextRel(c)(s, s') ensures InvFn()(s') {
      var step :| Enabled(c, s, step) && s' == Apply(c, s, step);
      StepKeepsInv(c, s, step);
    }
    InvariantHolds(NextRel(c), InvFn(), run, k);
  }

  function Holds(d: Descriptor): Process -> int { (p: Process) => if d in p.fds then 1 else 0 }

  /** How many processes hold a descriptor open. */
  function RefCount(s: State, d: Descriptor): int
  {
    (if d in s.parentFds then 1 else 0) + SumOf(Holds(d), s.children)
  }

  lemma {:induction false} HoldersOfConn(children: seq<Process>, i: nat)
    requires forall j :: 0 <= j < |children| ==> (Conn(i) in children[j].fds <==> j == i)
    ensures SumOf(Holds(Conn(i)), children) == if i < |children| then 1 else 0
    decreases |children|
  {
    if children == [] {
    } else {
      var front, last := children[..|children| - 1], children[|children| - 1];
      assert children == front + [last];
      SumAppend(Holds(Conn(i)), front, last);
      HoldersOfConn(front, i);
    }
  }

  function IsStarting(): Process -> int { (p: Process) => if p.pc.Starting? then 1 else 0 }

  lemma {:induction false} HoldersOfListening(children: seq<Process>)
    requires forall j :: 0 <= j < |children| ==> (Listening in children[j].fds <==> children[j].pc.Starting?)
    ensures SumOf(Holds(Listening), children) == SumOf(IsStarting(), children)
  {
    if children == [] {
    } else {
      HoldersOfListening(children[1..]);
    }
  }

  /** Connection i is the one the parent is forking for or about to close. */
  predicate InParent(s: State, i: nat)
  {
    (s.parent.Forking? || s.parent.Closing?) && i == |s.links| - 1
  }

  /** Descriptor ownership: no child holds any connection but its own; each connection is open in its child,
      once there is one, and in the parent until the parent closes it; the listening socket is open
      in the parent and in the children that have not closed it yet. */
  lemma DescriptorOwnership(c: EchoLink.Config, run: seq<State>, k: nat)
    requires IsRun(NextRel(c), run) && run[0] == START && k < |run|
    ensures var s := run[k];
            && (forall i, j :: 0 <= i < |s.children| && Conn(j) in s.children[i].fds ==> j == i)
            && (forall i: nat :: i < |s.links| ==>
                  RefCount(s, Conn(i)) == (if i < |s.children| then 1 else 0) + (if InParent(s, i) then 1 else 0))
            && RefCount(s, Listening) == (if s.parent.Exited? then 0 else 1) + SumOf(IsStarting(), s.children)
  {
    RunsKeepInv(c, run, k);
    var s := run[k];
    forall i: nat | i < |s.links|
      ensures RefCount(s, Conn(i)) == (if i < |s.children| then 1 else 0) + (if InParent(s, i) then 1 else 0)
    {
      HoldersOfConn(s.children, i);
    }
    HoldersOfListening(s.children);
  }

  // ---- each connection on its own

  /** What a run of the whole server looks like from connection i: its link's successive values,
      from the accept() on, without the steps that do not concern it. */
  function Project(run: seq<State>, i: nat): seq<EchoLink.Link>
  {
    if run == [] then []
    else
      var before := Project(run[..|run| - 1], i);
      var s := run[|run| - 1];
      if |s.links| <= i then before
      else if before != [] && before[|before| - 1] == s.links[i] then before
      else before + [s.links[i]]
  }

  lemma StepOnOneLink(c: EchoLink.Config, s: State, s': State, i: nat)
    requires Inv(s) && Next(c, s, s')
    ensures |s.links| <= |s'.links|
    ensures i < |s.links| ==> s'.links[i] == s.links[i] || EchoLink.Next(c, s.links[i], s'.links[i])
    ensures |s.links| <= i < |s'.links| ==> s'.links[i] == EchoLink.FRESH_LINK
  {
    var step :| Enabled(c, s, step) && s' == Apply(c, s, step);
    match step
    case ChildEchoes(j, st) =>
    case ClientMoves(j, st) =>
    case _ =>
  }

  /** Refinement: seen from any one connection, every run is a run of the single-connection echo loop. */
  lemma {:induction false} ProjectionIsEchoRun(c: EchoLink.Config, run: seq<State>, i: nat)
    requires IsRun(NextRel(c), run) && run[0] == START
    ensures i < |Last(run).links| ==>
              && IsRun(EchoLink.NextRel(c), Project(run, i))
              && Project(run, i)[0] == EchoLink.FRESH_LINK && Last(Project(run, i)) == Last(run).links[i]
    ensures |Last(run).links| <= i ==> Project(run, i) == []
    decreases |run|
  {
    var front := run[..|run| - 1];
    if |run| > 1 {
      ProjectionIsEchoRun(c, front, i);
      RunsKeepInv(c, run, |run| - 2);
      assert NextRel(c)(run[|run| - 2], run[|run| - 1]);
      StepOnOneLink(c, run[|run| - 2], run[|run| - 1], i);
      if i < |Last(front).links| && Last(front).links[i] != Last(run).links[i] {
        var _ := ExtendRun(EchoLink.NextRel(c), Project(front, i), Last(run).links[i]);
      }
    } else {
      assert front == [];
    }
  }

  /** So each client only ever gets back a prefix of its own bytes, and when its child has returned from
      do_echo every one of them has been written back. */
  lemma EachClientGetsItsOwnEcho(c: EchoLink.Config, run: seq<State>, i: nat)
    requires IsRun(NextRel(c), run) && run[0] == START && i < |Last(run).links|
    ensures var l := Last(run).links[i];
            && l.output <= l.input
            && l.input == l.output + EchoLink.InFlight(l)
    ensures i < |Last(run).children| && Last(run).children[i].pc.Returned? ==>
              var l := Last(run).links[i]; l.output + l.down == l.input && l.eof
  {
    ProjectionIsEchoRun(c, run, i);
    var one := Project(run, i);
    EchoLink.EchoIsPrefix(c, one, |one| - 1);
    RunsKeepInv(c, run, |run| - 1);
  }

  // ---- each child on its own

  /** A step of connection i: its child's, or its client's. */
  predicate Concerns(step: Step, i: nat)
  {
    match step
    case ChildClosesListening(j) => j == i
    case ChildEchoes(j, _) => j == i
    case ClientMoves(j, _) => j == i
    case _ => false
  }

  /** Nothing that the parent, or any other connection, does touches connection i or its child. */
  lemma OthersLeaveAlone(c: EchoLink.Config, s: State, step: Step, i: nat)
    requires Inv(s) && Enabled(c, s, step) && !Concerns(step, i) && i < |s.children|
    ensures var s' := Apply(c, s, step);
            i < |s'.children| && s'.children[i] == s.children[i] && s'.links[i] == s.links[i]
  {
  }

  /** And whether the child can make a given step of do_echo depends on its own connection only: it still holds that
      descriptor, whatever happened to any other. */
  lemma ChildDependsOnItsConnection(c: EchoLink.Config, s: State, i: nat, step: EchoLink.Step)
    requires Inv(s) && i < |s.children| && s.children[i].pc.Echoing? && EchoLink.ServerStep(step)
    ensures Enabled(c, s, ChildEchoes(i, step)) <==> EchoLink.Enabled(c, s.links[i], step)
  {
    assert s.children[i].conn == i && s.children[i].fds == ChildHolds(i, s.children[i].pc);
  }

  /** What connection i still has to do once its client has closed its sending end. */
  function Drain(s: State, i: nat): int
    requires i < |s.children| && i < |s.links|
  {
    var l := s.links[i];
    3 * |l.up| + 2 * |l.server| + |l.down| + (if l.served then 0 else 1) + (if s.children[i].pc.Starting? then 1 else 0)
  }

  lemma ConcernLowersDrain(c: EchoLink.Config, s: State, step: Step, i: nat)
    requires Inv(s) && Enabled(c, s, step) && Concerns(step, i) && i < |s.children| && s.links[i].eof
    ensures i < |Apply(c, s, step).children| && Apply(c, s, step).links[i].eof
    ensures Drain(Apply(c, s, step), i) < Drain(s, i)
  {
    assert s.children[i].conn == i;
  }

  /** While a closed connection's child has not returned, that child can move or its client has bytes to read. */
  lemma ClosedConnectionCanMove(c: EchoLink.Config, s: State, i: nat) returns (step: Step)
    requires c.Valid() && Inv(s) && i < |s.children| && s.links[i].eof && !s.children[i].pc.Returned?
    ensures Enabled(c, s, step) && Concerns(step, i)
  {
    var l := s.links[i];
    assert s.children[i].conn == i && s.children[i].fds == ChildHolds(i, s.children[i].pc);
    if s.children[i].pc.Starting? {
      step := ChildClosesListening(i);
    } else if l.down != [] {
      step := ClientMoves(i, EchoLink.Pull(1));
    } else if l.server != [] {
      step := ChildEchoes(i, EchoLink.ServerWrite(1));
    } else if l.up != [] {
      step := ChildEchoes(i, EchoLink.ServerRead(1));
    } else {
      step := ChildEchoes(i, EchoLink.ServerEof);
    }
  }

  /** Step k of the run changes connection i or its child. */
  predicate MovesAt(run: seq<State>, i: nat, k: nat)
  {
    && k + 1 < |run|
    && i < |run[k].children| && i < |run[k + 1].children| && i < |run[k].links| && i < |run[k + 1].links|
    && (run[k].children[i] != run[k + 1].children[i] || run[k].links[i] != run[k + 1].links[i])
  }

  lemma DrainStep(c: EchoLink.Config, s: State, s': State, i: nat)
    requires Inv(s) && Next(c, s, s') && i < |s.children| && s.links[i].eof
    ensures Inv(s') && i < |s'.children| && s'.links[i].eof
    ensures Drain(s', i) <= Drain(s, i)
    ensures s'.children[i] != s.children[i] || s'.links[i] != s.links[i] ==> Drain(s', i) < Drain(s, i)
  {
    var step :| Enabled(c, s, step) && s' == Apply(c, s, step);
    StepKeepsInv(c, s, step);
    if Concerns(step, i) {
      ConcernLowersDrain(c, s, step, i);
    } else {
      OthersLeaveAlone(c, s, step, i);
    }
  }

  lemma NoMoveLeft(c: EchoLink.Config, s: State, i: nat)
    requires c.Valid() && Inv(s) && i < |s.children| && s.links[i].eof
    requires forall step :: Concerns(step, i) ==> !Enabled(c, s, step)
    ensures s.children[i].pc.Returned?
  {
    if !s.children[i].pc.Returned? {
      var step := ClosedConnectionCanMove(c, s, i);
    }
  }

  /** Connection i has its child, and its client has closed. */
  ghost predicate Closed(s: State, i: nat) { Inv(s) && i < |s.children| && s.links[i].eof }

  lemma StaysClosed(c: EchoLink.Config, run: seq<State>, i: nat, k: nat)
    requires IsRun(NextRel(c), run) && Closed(run[0], i) && k < |run|
    ensures Closed(run[k], i)
  {
    var closed := (s: State) => Closed(s, i);
    forall s, s' | closed(s) && NextRel(c)(s, s') ensures closed(s') {
      DrainStep(c, s, s', i);
    }
    InvariantHolds(NextRel(c), closed, run, k);
  }

  lemma DrainAt(c: EchoLink.Config, run: seq<State>, i: nat, k: nat)
    requires IsRun(NextRel(c), run) && 0 < k < |run| && Closed(run[k - 1], i)
    ensures Closed(run[k], i) && Drain(run[k], i) <= Drain(run[k - 1], i)
    ensures MovesAt(run, i, k - 1) ==> Drain(run[k], i) < Drain(run[k - 1], i)
  {
    assert NextRel(c)(run[k - 1], run[k]);
    DrainStep(c, run[k - 1], run[k], i);
  }

  lemma MovesAreBounded(c: EchoLink.Config, run: seq<State>, i: nat, at: set<nat>)
    requires IsRun(NextRel(c), run) && Closed(run[0], i)
    requires forall k :: k in at ==> MovesAt(run, i, k)
    ensures Closed(Last(run), i) && |at| <= Drain(run[0], i) - Drain(Last(run), i)
  {
    forall k | 0 <= k < |run| ensures Closed(run[k], i) {
      StaysClosed(c, run, i, k);
    }
    var m := seq(|run|, k requires 0 <= k < |run| => assert Closed(run[k], i); Drain(run[k], i));
    forall k | 0 < k < |run|
      ensures m[k] <= m[k - 1] && (MovesAt(run, i, k - 1) ==> m[k] < m[k - 1])
    {
      DrainAt(c, run, i, k);
    }
    FallsAreBounded(m, at);
  }

  /** Once the client of connection i has closed, connection i makes only boundedly many more moves, however many
      other connections there are and whatever they do; and as long as its child has not returned from do_echo, one
      of its moves is possible. So a client that closes and keeps reading sees its child return. */
  lemma ClosedConnectionsReturn(c: EchoLink.Config, run: seq<State>, i: nat, at: set<nat>)
    requires c.Valid() && IsRun(NextRel(c), run) && Inv(run[0]) && i < |run[0].children| && run[0].links[i].eof
    requires forall k :: k in at ==> MovesAt(run, i, k)
    ensures Inv(Last(run)) && i < |Last(run).children| && Last(run).links[i].eof
    ensures |at| <= Drain(run[0], i) - Drain(Last(run), i)
    ensures Drain(Last(run), i) >= 0
    ensures (forall step :: Concerns(step, i) ==> !Enabled(c, Last(run), step)) ==> Last(run).children[i].pc.Returned?
  {
    MovesAreBounded(c, run, i, at);
    if forall step :: Concerns(step, i) ==> !Enabled(c, Last(run), step) {
      NoMoveLeft(c, Last(run), i);
    }
  }
}
