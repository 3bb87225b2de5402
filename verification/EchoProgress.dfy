/** When an echo round can block for ever, and why it otherwise always completes. */
module EchoProgress {
  import opened Bytes
  import opened Runs
  import EchoLink
  import opened EchoRound

  /** The steps of one round: everything except starting another message and closing. */
  predicate InRound(step: Step) { !step.Begin? && !step.Quit? }

  ghost predicate RoundNext(c: Config, s: State, s': State)
  {
    exists step :: InRound(step) && Enabled(c, s, step) && s' == Apply(c, s, step)
  }

  ghost function RoundRel(c: Config): (State, State) -> bool { (s, s') => RoundNext(c, s, s') }

  /** The client has just read `msg` from its user and is about to write it. */
  ghost predicate RoundStart(c: Config, s: State, msg: seq<byte>)
  {
    Inv(c, s) && s.client == Writing(msg, 0)
  }

  /** A signal makes write() return before it has accepted everything. Nothing in the system brings that about. */
  predicate Interruption(s: State, step: Step)
  {
    step.WriteReturns? && s.client.Writing? && s.client.sent < |s.client.msg|
  }

  /** Nothing can happen in this round, unless a signal comes. */
  ghost predicate Quiet(c: Config, s: State)
  {
    forall step :: InRound(step) && !Interruption(s, step) ==> !Enabled(c, s, step)
  }

  ghost predicate Unfinished(s: State) { s.client.Writing? || s.client.Receiving? }

  /** Stuck: the round is not over and neither client nor server can move. */
  ghost predicate Stuck(c: Config, s: State) { Unfinished(s) && Quiet(c, s) }

  /** Client and server are both blocked in write(): each channel is full and each has bytes left. */
  ghost predicate BothBlockedInWrite(c: Config, s: State)
  {
    && s.client.Writing? && s.client.sent < |s.client.msg| && |s.link.up| == c.link.cUp
    && s.link.server != [] && |s.link.down| == c.link.cDown
  }

  lemma InFlightCount(c: Config, s: State)
    requires Inv(c, s)
    ensures |GotNow(s.client)| + |s.link.up| + |s.link.server| + |s.link.down| == |SentNow(s.client)|
  {
    assert |GotNow(s.client) + EchoLink.InFlight(s.link)| == |SentNow(s.client)|;
  }

  lemma InFlightWhileWriting(c: Config, s: State)
    requires Inv(c, s) && s.client.Writing?
    ensures s.client.sent == |s.link.up| + |s.link.server| + |s.link.down|
  {
    InFlightCount(c, s);
  }

  /** The only way to be stuck. */
  lemma StuckIffBothBlocked(c: Config, s: State)
    requires c.Valid() && Inv(c, s)
    ensures Stuck(c, s) <==> BothBlockedInWrite(c, s)
  {
    InFlightCount(c, s);
    if Stuck(c, s) {
      assert Interruption(s, WriteReturns) || !Enabled(c, s, WriteReturns);
      assert !Enabled(c, s, Finish);
      assert !Enabled(c, s, Push(1)) && !Enabled(c, s, Receive(1));
      assert !Enabled(c, s, Server(EchoLink.ServerRead(1)));
      assert !Enabled(c, s, Server(EchoLink.ServerWrite(1)));
      assert !s.link.served;
    }
    if BothBlockedInWrite(c, s) {
      forall step | InRound(step) && !Interruption(s, step) ensures !Enabled(c, s, step) {
      }
    }
  }

  /** From there a signal to the client is the only way on, and only if its write() can be cut short by one. */
  lemma OnlyInterruptionFrees(c: Config, s: State, step: Step)
    requires c.Valid() && Inv(c, s) && Stuck(c, s) && InRound(step)
    ensures Enabled(c, s, step) <==> step.WriteReturns? && c.shortWrites && s.client.sent > 0
  {
    StuckIffBothBlocked(c, s);
  }

  // ---- termination

  /** Each byte weighs as many transfers as it still has ahead of it. */
  function Weight(s: State): nat
  {
    (match s.client
     case Writing(msg, sent) => (if sent <= |msg| then 4 * (|msg| - sent) else 0) + 2
     case Receiving(_, _, _) => 1
     case _ => 0)
    + 3 * |s.link.up| + 2 * |s.link.server| + |s.link.down|
    + (if s.link.served then 0 else 1)
  }

  lemma StepLowersWeight(c: Config, s: State, step: Step)
    requires Inv(c, s) && InRound(step) && Enabled(c, s, step)
    ensures Weight(Apply(c, s, step)) < Weight(s)
  {
  }

  lemma RoundStepFacts(c: Config, s: State, s': State)
    requires Inv(c, s) && RoundNext(c, s, s')
    ensures Inv(c, s') && Weight(s') < Weight(s)
  {
    var step :| InRound(step) && Enabled(c, s, step) && s' == Apply(c, s, step);
    StepKeepsInv(c, s, step);
    StepLowersWeight(c, s, step);
  }

  ghost function InvFn(c: Config): State -> bool { s => Inv(c, s) }

  lemma RoundRunsKeepInv(c: Config, run: seq<State>, k: nat)
    requires IsRun(RoundRel(c), run) && Inv(c, run[0]) && k < |run|
    ensures Inv(c, run[k])
  {
    forall s, s' | InvFn(c)(s) && RoundRel(c)(s, s') ensures InvFn(c)(s') {
      RoundStepFacts(c, s, s');
    }
    InvariantHolds(RoundRel(c), InvFn(c), run, k);
  }

  lemma RoundRunsAreShort(c: Config, run: seq<State>)
    requires IsRun(RoundRel(c), run) && Inv(c, run[0])
    ensures |run| - 1 <= Weight(run[0]) - Weight(Last(run))
  {
    var weight: State -> int := s => Weight(s);
    forall s, s' | InvFn(c)(s) && RoundRel(c)(s, s') ensures InvFn(c)(s') && weight(s') < weight(s) {
      RoundStepFacts(c, s, s');
    }
    MeasureBoundsRun(RoundRel(c), InvFn(c), weight, run);
  }

  /** Which message a state of a round belongs to, and the rounds logged before it. */
  ghost predicate Within(s: State, msg: seq<byte>, log: seq<Round>)
  {
    match s.client
    case Writing(m, _) => m == msg && s.log == log
    case Receiving(m, _, _) => m == msg && s.log == log
    case Idle => |s.log| == |log| + 1 && s.log[..|log|] == log && s.log[|log|].msg == msg
    case Closed => false
  }

  lemma RoundStaysWithin(c: Config, run: seq<State>, msg: seq<byte>, k: nat)
    requires IsRun(RoundRel(c), run) && RoundStart(c, run[0], msg) && k < |run|
    ensures Within(run[k], msg, run[0].log)
  {
    var log := run[0].log;
    forall s, s' | Within(s, msg, log) && RoundRel(c)(s, s') ensures Within(s', msg, log) {
      var step :| InRound(step) && Enabled(c, s, step) && s' == Apply(c, s, step);
    }
    InvariantHolds(RoundRel(c), s => Within(s, msg, log), run, k);
  }

  /** A message short enough for the two channels and one byte in the server never gets stuck. */
  lemma NoStuckState(c: Config, run: seq<State>, msg: seq<byte>, k: nat)
    requires c.Valid() && IsRun(RoundRel(c), run) && RoundStart(c, run[0], msg) && k < |run|
    requires |msg| <= c.link.cUp + c.link.cDown + 1
    ensures !Stuck(c, run[k])
  {
    RoundRunsKeepInv(c, run, k);
    RoundStaysWithin(c, run, msg, k);
    StuckIffBothBlocked(c, run[k]);
    if BothBlockedInWrite(c, run[k]) {
      InFlightWhileWriting(c, run[k]);
    }
  }

  /** Over whole conversations: a client whose messages are all short enough never gets stuck, in any round. */
  lemma NeverStuck(c: Config, run: seq<State>, k: nat)
    requires c.Valid() && IsRun(NextRel(c), run) && run[0] == START && k < |run|
    requires run[k].client.Writing? ==> |run[k].client.msg| <= c.link.cUp + c.link.cDown + 1
    ensures !Stuck(c, run[k])
  {
    RunsKeepInv(c, run, k);
    StuckIffBothBlocked(c, run[k]);
    if BothBlockedInWrite(c, run[k]) {
      InFlightWhileWriting(c, run[k]);
    }
  }

  /** The round for `msg` is over: its echo has been printed and the link is empty. */
  ghost predicate RoundDone(c: Config, s: State, msg: seq<byte>, log: seq<Round>)
  {
    && s.client == Idle
    && EchoLink.InFlight(s.link) == []
    && |s.log| == |log| + 1 && s.log[..|log|] == log
    && s.log[|log|].msg == msg && RoundOk(c, s.log[|log|])
  }

  lemma QuietIsDone(c: Config, s: State, msg: seq<byte>, log: seq<Round>)
    requires Inv(c, s) && Within(s, msg, log) && Quiet(c, s) && !Stuck(c, s)
    ensures RoundDone(c, s, msg, log)
  {
    assert |GotNow(s.client) + EchoLink.InFlight(s.link)| == |EchoLink.InFlight(s.link)|;
  }

  lemma RoundStartWeight(c: Config, s: State, msg: seq<byte>)
    requires RoundStart(c, s, msg)
    ensures Weight(s) <= 4 * |msg| + 3
  {
    InFlightWhileWriting(c, s);
  }

  /** Every run of a round takes a bounded number of steps, and one that can go no further
      has printed the echo of the message and left the link empty. */
  lemma RoundAlwaysCompletes(c: Config, run: seq<State>, msg: seq<byte>)
    requires c.Valid() && IsRun(RoundRel(c), run) && RoundStart(c, run[0], msg)
    requires |msg| <= c.link.cUp + c.link.cDown + 1
    ensures |run| <= 4 * |msg| + 4
    ensures Quiet(c, Last(run)) ==> RoundDone(c, Last(run), msg, run[0].log)
  {
    var last := |run| - 1;
    RoundRunsKeepInv(c, run, last);
    RoundRunsAreShort(c, run);
    RoundStartWeight(c, run[0], msg);
    if Quiet(c, Last(run)) {
      RoundStaysWithin(c, run, msg, last);
      NoStuckState(c, run, msg, last);
      QuietIsDone(c, run[last], msg, run[0].log);
    }
  }

  // ---- the deadlock

  /** The client pushes one byte and the server takes it. */
  lemma OneByteUp(c: Config, run: seq<State>) returns (run': seq<State>)
    requires c.Valid() && IsRun(RoundRel(c), run)
    requires var s := Last(run);
             && s.client.Writing? && s.client.sent < |s.client.msg|
             && !s.link.eof && !s.link.served && s.link.up == [] && s.link.server == []
    ensures IsRun(RoundRel(c), run') && run'[0] == run[0]
    ensures var (s, s') := (Last(run), Last(run'));
            && s'.client == Writing(s.client.msg, s.client.sent + 1)
            && !s'.link.eof && !s'.link.served
            && s'.link.up == [] && |s'.link.server| == 1 && s'.link.down == s.link.down
  {
    var pushed := ExtendRun(RoundRel(c), run, Apply(c, Last(run), Push(1)));
    run' := ExtendRun(RoundRel(c), pushed, Apply(c, Last(pushed), Server(EchoLink.ServerRead(1))));
  }

  /** `j` bytes one at a time all the way into the channel back, which the client does not read yet. */
  lemma {:induction false} FillDown(c: Config, s: State, msg: seq<byte>, j: nat) returns (run: seq<State>)
    requires c.Valid() && RoundStart(c, s, msg) && j <= c.link.cDown && j <= |msg|
    ensures IsRun(RoundRel(c), run) && run[0] == s
    ensures var s' := Last(run);
            && s'.client == Writing(msg, j)
            && !s'.link.eof && !s'.link.served && s'.link.up == [] && s'.link.server == [] && |s'.link.down| == j
  {
    if j == 0 {
      run := [s];
      InFlightWhileWriting(c, s);
    } else {
      var before := FillDown(c, s, msg, j - 1);
      var taken := OneByteUp(c, before);
      run := ExtendRun(RoundRel(c), taken, Apply(c, Last(taken), Server(EchoLink.ServerWrite(1))));
    }
  }

  /** A longer message has a run that ends with both sides blocked in write(). */
  lemma DeadlockRun(c: Config, s: State, msg: seq<byte>) returns (run: seq<State>)
    requires c.Valid() && RoundStart(c, s, msg)
    requires |msg| >= c.link.cUp + c.link.cDown + 2
    ensures IsRun(RoundRel(c), run) && run[0] == s && BothBlockedInWrite(c, Last(run))
  {
    var filled := FillDown(c, s, msg, c.link.cDown);
    var taken := OneByteUp(c, filled);
    run := ExtendRun(RoundRel(c), taken, Apply(c, Last(taken), Push(c.link.cUp)));
  }

  ghost predicate CanGetStuck(c: Config, s: State)
  {
    exists run :: IsRun(RoundRel(c), run) && run[0] == s && Stuck(c, Last(run))
  }

  /** The exact deadlock condition: a signal apart, whether or not writes can be cut short by one. */
  lemma DeadlockCharacterisation(c: Config, s: State, msg: seq<byte>)
    requires c.Valid() && RoundStart(c, s, msg)
    ensures CanGetStuck(c, s) <==> |msg| >= c.link.cUp + c.link.cDown + 2
  {
    if |msg| >= c.link.cUp + c.link.cDown + 2 {
      var run := DeadlockRun(c, s, msg);
      RoundRunsKeepInv(c, run, |run| - 1);
      StuckIffBothBlocked(c, Last(run));
    } else if CanGetStuck(c, s) {
      var run :| IsRun(RoundRel(c), run) && run[0] == s && Stuck(c, Last(run));
      NoStuckState(c, run, msg, |run| - 1);
    }
  }
}
