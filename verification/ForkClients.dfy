/** The forking server with an echo client at every connection: the deadlock of one of them, among all the others. */
module ForkClients {
  import opened Bytes
  import opened Runs
  import L = EchoLink
  import R = EchoRound
  import P = EchoProgress
  import F = ForkServer

  /** A client: where it stands, and its finished rounds. */
  datatype Seat = Seat(client: R.Client, log: seq<R.Round>)

  /** Client i has connection i. */
  datatype State = State(server: F.State, seats: seq<Seat>)

  const START := State(F.START, [])

  predicate Seated(s: State, i: nat) { i < |s.seats| && i < |s.server.links| }

  /** Client i and its connection on their own. */
  function At(s: State, i: nat): R.State
    requires Seated(s, i)
  {
    R.State(s.server.links[i], s.seats[i].client, s.seats[i].log)
  }

  function With(s: State, i: nat, e: R.State): State
    requires Seated(s, i)
  {
    State(s.server.(links := s.server.links[i := e.link]), s.seats[i := Seat(e.client, e.log)])
  }

  datatype Step = Server(act: F.Step) | Client(i: nat, step: R.Step)

  predicate Enabled(c: R.Config, s: State, step: Step)
  {
    match step
    case Server(step) => !step.ClientMoves? && F.Enabled(c.link, s.server, step)
    case Client(i, step) => Seated(s, i) && !step.Server? && R.Enabled(c, At(s, i), step)
  }

  function Apply(c: R.Config, s: State, step: Step): State
    requires Enabled(c, s, step)
  {
    match step
    case Server(step) =>
      State(F.Apply(c.link, s.server, step), if step.Accept? then s.seats + [Seat(R.Idle, [])] else s.seats)
    case Client(i, step) => With(s, i, R.Apply(c, At(s, i), step))
  }

  ghost predicate Next(c: R.Config, s: State, s': State)
  {
    exists step :: Enabled(c, s, step) && s' == Apply(c, s, step)
  }

  ghost function NextRel(c: R.Config): (State, State) -> bool { (s, s') => Next(c, s, s') }

  // ---- both machines at once

  /** What a client does to its connection. */
  function OnLink(s: R.State, step: R.Step): L.Step
    requires step.Push? ==> s.client.Writing? && s.client.sent + step.k <= |s.client.msg|
  {
    match step
    case Push(k) => L.Push(s.client.msg[s.client.sent..s.client.sent + k])
    case Receive(k) => L.Pull(k)
    case _ => L.CloseUp
  }

  /** Each step is one of the server with arbitrary clients, or does not concern it. */
  lemma StepOfServer(c: R.Config, s: State, step: Step)
    requires Enabled(c, s, step)
    ensures var s' := Apply(c, s, step); s'.server == s.server || F.Next(c.link, s.server, s'.server)
  {
    var s' := Apply(c, s, step);
    match step
    case Server(st) =>
    case Client(i, st) =>
      if st.Push? || st.Receive? || st.Quit? {
        var moves := F.ClientMoves(i, OnLink(At(s, i), st));
        assert F.Enabled(c.link, s.server, moves) && s'.server == F.Apply(c.link, s.server, moves);
      } else {
        assert s.server.links[i := s.server.links[i]] == s.server.links;
      }
  }

  /** And, seen from client i, one of that client alone with the echo server, or nothing. */
  lemma StepOfClient(c: R.Config, s: State, step: Step, i: nat)
    requires F.Inv(s.server) && |s.seats| == |s.server.links| && Enabled(c, s, step)
    requires Seated(Apply(c, s, step), i)
    ensures var s' := Apply(c, s, step);
            if i < |s.seats| then At(s', i) == At(s, i) || R.Next(c, At(s, i), At(s', i)) else At(s', i) == R.START
  {
    if i < |s.seats| {
      match step
      case Client(j, st) =>
      case Server(ChildEchoes(j, st)) =>
        assert s.server.children[j].conn == j;
        if j == i {
          assert R.Enabled(c, At(s, i), R.Server(st));
        }
      case _ =>
    }
  }

  ghost predicate Inv(c: R.Config, s: State)
  {
    && F.Inv(s.server) && |s.seats| == |s.server.links|
    && (forall i :: 0 <= i < |s.seats| ==> R.Inv(c, At(s, i)))
    && (forall i :: 0 <= i < |s.seats| ==> s.server.links[i].server != [] ==> Begun(s.server, i))
  }

  /** The child of connection i has come to do_echo. */
  predicate Begun(s: F.State, i: nat) { i < |s.children| && !s.children[i].pc.Starting? }

  lemma StepKeepsBegun(c: R.Config, s: State, step: Step, i: nat)
    requires Inv(c, s) && Enabled(c, s, step) && Seated(Apply(c, s, step), i)
    ensures var s' := Apply(c, s, step); s'.server.links[i].server != [] ==> Begun(s'.server, i)
  {
    match step
    case Server(ChildEchoes(j, st)) => assert s.server.children[j].conn == j;
    case _ =>
  }

  lemma StepKeepsServer(c: R.Config, s: State, step: Step)
    requires Inv(c, s) && Enabled(c, s, step)
    ensures var s' := Apply(c, s, step); F.Inv(s'.server) && |s'.seats| == |s'.server.links|
  {
    var s' := Apply(c, s, step);
    StepOfServer(c, s, step);
    if s'.server != s.server {
      var st :| F.Enabled(c.link, s.server, st) && s'.server == F.Apply(c.link, s.server, st);
      F.StepKeepsInv(c.link, s.server, st);
    }
  }

  lemma StepKeepsClient(c: R.Config, s: State, step: Step, i: nat)
    requires Inv(c, s) && Enabled(c, s, step) && Seated(Apply(c, s, step), i)
    ensures R.Inv(c, At(Apply(c, s, step), i))
  {
    var s' := Apply(c, s, step);
    StepOfClient(c, s, step, i);
    if i < |s.seats| && At(s', i) != At(s, i) {
      var st :| R.Enabled(c, At(s, i), st) && At(s', i) == R.Apply(c, At(s, i), st);
      R.StepKeepsInv(c, At(s, i), st);
    }
  }

  lemma StepKeepsInv(c: R.Config, s: State, step: Step)
    requires Inv(c, s) && Enabled(c, s, step)
    ensures Inv(c, Apply(c, s, step))
  {
    var s' := Apply(c, s, step);
    StepKeepsServer(c, s, step);
    forall i | 0 <= i < |s'.seats|
      ensures R.Inv(c, At(s', i)) && (s'.server.links[i].server != [] ==> Begun(s'.server, i))
    {
      StepKeepsBegun(c, s, step, i);
      StepKeepsClient(c, s, step, i);
    }
  }

  lemma RunsKeepInv(c: R.Config, run: seq<State>, k: nat)
    requires IsRun(NextRel(c), run) && Inv(c, run[0]) && k < |run|
    ensures Inv(c, run[k])
  {
    var inv := (s: State) => Inv(c, s);
    forall s, s' | inv(s) && NextRel(c)(s, s') ensures inv(s') {
      var step :| Enabled(c, s, step) && s' == Apply(c, s, step);
      StepKeepsInv(c, s, step);
    }
    InvariantHolds(NextRel(c), inv, run, k);
  }

  // ---- one client stuck

  /** A step of client i or of its child; not a signal that makes the client's write() return early. */
  predicate OfRound(s: State, step: Step, i: nat)
    requires Seated(s, i)
  {
    match step
    case Server(step) => F.Concerns(step, i)
    case Client(j, step) => j == i && P.InRound(step) && !P.Interruption(At(s, i), step)
  }

  /** Client i is in the middle of a round, and neither it nor its child can move. */
  ghost predicate ClientStuck(c: R.Config, s: State, i: nat)
    requires Seated(s, i)
  {
    P.Unfinished(At(s, i)) && forall step :: OfRound(s, step, i) ==> !Enabled(c, s, step)
  }

  lemma StuckIsBlocked(c: R.Config, s: State, i: nat)
    requires c.Valid() && Inv(c, s) && i < |s.server.children| && ClientStuck(c, s, i)
    ensures P.BothBlockedInWrite(c, At(s, i))
  {
    var e, pc := At(s, i), s.server.children[i].pc;
    assert OfRound(s, Server(F.ChildClosesListening(i)), i);
    assert pc.Echoing?;
    forall st | P.InRound(st) && !P.Interruption(e, st) ensures !R.Enabled(c, e, st) {
      if st.Server? && L.ServerStep(st.step) {
        assert OfRound(s, Server(F.ChildEchoes(i, st.step)), i);
        F.ChildDependsOnItsConnection(c.link, s.server, i, st.step);
      } else if !st.Server? {
        assert OfRound(s, Client(i, st), i);
      }
    }
    P.StuckIffBothBlocked(c, e);
  }

  lemma BlockedIsStuck(c: R.Config, s: State, i: nat)
    requires c.Valid() && Inv(c, s) && i < |s.server.children| && P.BothBlockedInWrite(c, At(s, i))
    ensures ClientStuck(c, s, i)
  {
    var e := At(s, i);
    P.StuckIffBothBlocked(c, e);
    assert Begun(s.server, i);
    forall step | OfRound(s, step, i) ensures !Enabled(c, s, step) {
      match step
      case Server(ChildEchoes(_, st)) =>
        if L.ServerStep(st) {
          assert !R.Enabled(c, e, R.Server(st));
          F.ChildDependsOnItsConnection(c.link, s.server, i, st);
        }
      case _ =>
    }
  }

  /** A client whose child has been forked is stuck exactly when it and its child are both blocked in write(),
      whatever the other clients, their children and the parent are doing. */
  lemma StuckIffBlocked(c: R.Config, s: State, i: nat)
    requires c.Valid() && Inv(c, s) && i < |s.server.children|
    ensures ClientStuck(c, s, i) <==> P.BothBlockedInWrite(c, At(s, i))
  {
    if ClientStuck(c, s, i) {
      StuckIsBlocked(c, s, i);
    }
    if P.BothBlockedInWrite(c, At(s, i)) {
      BlockedIsStuck(c, s, i);
    }
  }

  predicate Concerns(step: Step, i: nat)
  {
    match step
    case Server(step) => F.Concerns(step, i)
    case Client(j, _) => j == i
  }

  /** Nothing another client, its child or the parent does makes client i stuck, or frees it. */
  lemma OthersLeaveAlone(c: R.Config, s: State, step: Step, i: nat)
    requires c.Valid() && Inv(c, s) && i < |s.server.children| && Enabled(c, s, step) && !Concerns(step, i)
    ensures var s' := Apply(c, s, step);
            && Seated(s', i) && At(s', i) == At(s, i)
            && (ClientStuck(c, s', i) <==> ClientStuck(c, s, i))
  {
    var s' := Apply(c, s, step);
    StepKeepsInv(c, s, step);
    if step.Server? {
      F.OthersLeaveAlone(c.link, s.server, step.act, i);
    }
    StuckIffBlocked(c, s, i);
    StuckIffBlocked(c, s', i);
  }

  /** A step that is not a signal to client i. */
  ghost predicate CalmNext(c: R.Config, i: nat, s: State, s': State)
  {
    exists step :: Enabled(c, s, step) && s' == Apply(c, s, step)
      && !(step.Client? && step.i == i && P.Interruption(At(s, i), step.step))
  }

  ghost function CalmRel(c: R.Config, i: nat): (State, State) -> bool { (s, s') => CalmNext(c, i, s, s') }

  /** Client i stands as in e, and is stuck there. */
  ghost predicate StuckAt(c: R.Config, s: State, i: nat, e: R.State)
  {
    Inv(c, s) && i < |s.server.children| && At(s, i) == e && ClientStuck(c, s, i)
  }

  lemma StuckStays(c: R.Config, i: nat, s: State, s': State, e: R.State)
    requires c.Valid() && StuckAt(c, s, i, e) && CalmNext(c, i, s, s')
    ensures StuckAt(c, s', i, e)
  {
    var step :| Enabled(c, s, step) && s' == Apply(c, s, step)
      && !(step.Client? && step.i == i && P.Interruption(At(s, i), step.step));
    StepKeepsInv(c, s, step);
    assert !OfRound(s, step, i);
    assert !Concerns(step, i);
    OthersLeaveAlone(c, s, step, i);
  }

  /** So a stuck client stays where it is for ever, unless a signal interrupts its own write(). */
  lemma StuckForGood(c: R.Config, i: nat, run: seq<State>, k: nat)
    requires c.Valid() && IsRun(CalmRel(c, i), run) && Inv(c, run[0]) && k < |run|
    requires i < |run[0].server.children| && ClientStuck(c, run[0], i)
    ensures Seated(run[k], i) && At(run[k], i) == At(run[0], i) && ClientStuck(c, run[k], i)
  {
    var e := At(run[0], i);
    var inv := (s: State) => StuckAt(c, s, i, e);
    forall s, s' | inv(s) && CalmRel(c, i)(s, s') ensures inv(s') {
      StuckStays(c, i, s, s', e);
    }
    InvariantHolds(CalmRel(c, i), inv, run, k);
  }

  // ---- which message

  /** In some run from s, in which all clients and processes may take part, client i gets stuck sending msg. */
  ghost predicate CanGetStuck(c: R.Config, s: State, i: nat, msg: seq<byte>)
  {
    exists run :: IsRun(NextRel(c), run) && run[0] == s && Seated(Last(run), i)
      && ClientStuck(c, Last(run), i) && Last(run).seats[i].client.msg == msg
  }

  /** A round with the connection still open. */
  ghost function OpenRel(c: R.Config): (R.State, R.State) -> bool
  {
    (e, e') => P.RoundNext(c, e, e') && !e.link.eof
  }

  lemma OpenRound(c: R.Config, run: seq<R.State>, msg: seq<byte>)
    requires IsRun(P.RoundRel(c), run) && P.RoundStart(c, run[0], msg)
    ensures IsRun(OpenRel(c), run)
  {
    forall k | 0 < k < |run| ensures OpenRel(c)(run[k - 1], run[k]) {
      assert P.RoundRel(c)(run[k - 1], run[k]);
      P.RoundRunsKeepInv(c, run, k - 1);
      P.RoundStaysWithin(c, run, msg, k - 1);
    }
  }

  lemma AloneChild(c: R.Config, s: State, i: nat, e: R.State, st: L.Step)
    requires F.Inv(s.server) && Seated(s, i) && i < |s.server.children| && s.server.children[i].pc.Echoing?
    requires R.Enabled(c, e, R.Server(st)) && !e.link.eof
    ensures Next(c, With(s, i, e), With(s, i, R.Apply(c, e, R.Server(st))))
  {
    var t, p, step := With(s, i, e), s.server.children[i], Server(F.ChildEchoes(i, st));
    assert p.conn == i && p.fds == F.ChildHolds(i, p.pc);
    assert Enabled(c, t, step);
    assert s.server.children[i := p] == s.server.children;
    assert Apply(c, t, step) == With(s, i, R.Apply(c, e, R.Server(st)));
  }

  /** The steps of client i and its child, with everybody else waiting. */
  lemma AloneStep(c: R.Config, s: State, i: nat, e: R.State, e': R.State)
    requires F.Inv(s.server) && Seated(s, i) && i < |s.server.children| && s.server.children[i].pc.Echoing?
    requires OpenRel(c)(e, e')
    ensures Next(c, With(s, i, e), With(s, i, e'))
  {
    var st :| P.InRound(st) && R.Enabled(c, e, st) && e' == R.Apply(c, e, st);
    if st.Server? {
      AloneChild(c, s, i, e, st.step);
    } else {
      var t := With(s, i, e);
      assert At(t, i) == e && Enabled(c, t, Client(i, st));
      assert Apply(c, t, Client(i, st)) == With(s, i, e');
    }
  }

  /** The child of an open connection comes to do_echo, if it is not there yet. */
  lemma Arrive(c: R.Config, s: State, i: nat) returns (run: seq<State>)
    requires Inv(c, s) && i < |s.server.children| && !s.server.links[i].eof
    ensures IsRun(NextRel(c), run) && run[0] == s && Inv(c, Last(run))
    ensures i < |Last(run).server.children| && Last(run).server.children[i].pc.Echoing? && At(Last(run), i) == At(s, i)
  {
    run := [s];
    assert R.Inv(c, At(s, i));
    if s.server.children[i].pc.Starting? {
      var step := Server(F.ChildClosesListening(i));
      StepKeepsInv(c, s, step);
      run := ExtendRun(NextRel(c), run, Apply(c, s, step));
    }
  }

  lemma AloneStuck(c: R.Config, s: State, i: nat, msg: seq<byte>)
    requires c.Valid() && Inv(c, s) && i < |s.server.children|
    requires P.RoundStart(c, At(s, i), msg) && |msg| >= c.link.cUp + c.link.cDown + 2
    ensures CanGetStuck(c, s, i, msg)
  {
    var alone := P.DeadlockRun(c, At(s, i), msg);
    OpenRound(c, alone, msg);
    P.RoundStaysWithin(c, alone, msg, |alone| - 1);
    var run := Arrive(c, s, i);
    var t := Last(run);
    var embed := (e: R.State) => With(t, i, e);
    forall e, e' | OpenRel(c)(e, e') ensures NextRel(c)(embed(e), embed(e')) {
      AloneStep(c, t, i, e, e');
    }
    assert embed(At(t, i)) == t;
    run := EmbedRun(OpenRel(c), alone, embed, NextRel(c), run);
    RunsKeepInv(c, run, |run| - 1);
    assert At(Last(run), i) == Last(alone);
    StuckIffBlocked(c, Last(run), i);
  }

  /** The exact condition for one client among many: the message is too long for its own connection. The lengths and
      timing of all the others do not matter. */
  lemma CanGetStuckIff(c: R.Config, s: State, i: nat, msg: seq<byte>)
    requires c.Valid() && Inv(c, s) && i < |s.server.children|
    requires P.RoundStart(c, At(s, i), msg)
    ensures CanGetStuck(c, s, i, msg) <==> |msg| >= c.link.cUp + c.link.cDown + 2
  {
    if |msg| >= c.link.cUp + c.link.cDown + 2 {
      AloneStuck(c, s, i, msg);
    }
    if CanGetStuck(c, s, i, msg) {
      var run :| IsRun(NextRel(c), run) && run[0] == s && Seated(Last(run), i)
        && ClientStuck(c, Last(run), i) && Last(run).seats[i].client.msg == msg;
      RunsKeepInv(c, run, |run| - 1);
      ChildrenStay(c, run, i, |run| - 1);
      StuckIffBlocked(c, Last(run), i);
      P.InFlightWhileWriting(c, At(Last(run), i));
    }
  }

  lemma ChildrenStay(c: R.Config, run: seq<State>, i: nat, k: nat)
    requires IsRun(NextRel(c), run) && k < |run| && i < |run[0].server.children|
    ensures i < |run[k].server.children|
  {
    InvariantHolds(NextRel(c), (s: State) => i < |s.server.children|, run, k);
  }

  /** All of this holds at every state of the server's life. */
  lemma Reachable(c: R.Config, run: seq<State>, k: nat)
    requires IsRun(NextRel(c), run) && run[0] == START && k < |run|
    ensures Inv(c, run[k])
  {
    RunsKeepInv(c, run, k);
  }

  /** In particular each client only ever prints the echo of its own messages, each the part that was accepted. */
  lemma EveryEchoIsItsOwn(c: R.Config, run: seq<State>, k: nat, i: nat, j: nat)
    requires IsRun(NextRel(c), run) && run[0] == START && k < |run|
    requires i < |run[k].seats| && j < |run[k].seats[i].log|
    ensures R.RoundOk(c, run[k].seats[i].log[j])
  {
    Reachable(c, run, k);
    assert R.Inv(c, At(run[k], i));
  }
}
