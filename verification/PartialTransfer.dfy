/** The two partial-transfer loops of socket_example running against each other over a bounded channel,
    with the close() that follows each of them. */
module PartialTransfer {
  import opened Bytes
  import opened Runs
  import opened Sockets

  /** The message to send, the receiver's BUF_MAX_LEN and the channel's capacity. */
  datatype Config = Config(msg: seq<byte>, recvSize: nat, cap: nat)

  /** In its loop; returned 0 and closed; or ended by a send() that found nobody at the other end. */
  datatype Sender = Sending | Sent | Broken

  /** In its loop; returned 0; closed. */
  datatype Receiver = Receiving | Received | Gone

  /** `sent` is the sender's `written`; `buf` and `written` are the receiver's. */
  datatype State = State(sent: nat, sender: Sender, chan: seq<byte>, buf: seq<byte>, written: nat, receiver: Receiver)

  function Start(c: Config): State { State(0, Sending, [], Zeros(c.recvSize), 0, Receiving) }

  datatype Step = Send(k: nat) | SendFails | SenderCloses | Recv(k: nat) | RecvZero | ReceiverCloses

  predicate Enabled(c: Config, s: State, step: Step)
  {
    match step
    case Send(k) =>
      s.sender == Sending && s.receiver != Gone && 1 <= k && s.sent + k <= |c.msg| && |s.chan| + k <= c.cap
    case SendFails => s.sender == Sending && s.receiver == Gone && s.sent < |c.msg|
    case SenderCloses => s.sender == Sending && s.sent >= |c.msg|
    case Recv(k) => s.receiver == Receiving && 1 <= k <= |s.chan| && s.written + k <= |s.buf|
    case RecvZero => s.receiver == Receiving && (s.written == |s.buf| || (s.chan == [] && s.sender != Sending))
    case ReceiverCloses => s.receiver == Received
  }

  function Apply(c: Config, s: State, step: Step): State
    requires Enabled(c, s, step)
  {
    match step
    case Send(k) => s.(sent := s.sent + k, chan := s.chan + c.msg[s.sent..s.sent + k])
    case SendFails => s.(sender := Broken)
    case SenderCloses => s.(sender := Sent)
    case Recv(k) => s.(chan := s.chan[k..], buf := Splice(s.buf, s.written, s.chan[..k]), written := s.written + k)
    case RecvZero => s.(receiver := Received)
    case ReceiverCloses => s.(receiver := Gone)
  }

  ghost predicate Next(c: Config, s: State, s': State)
  {
    exists step :: Enabled(c, s, step) && s' == Apply(c, s, step)
  }

  ghost function NextRel(c: Config): (State, State) -> bool { (s, s') => Next(c, s, s') }

  ghost predicate IsTransfer(c: Config, run: seq<State>)
  {
    IsRun(NextRel(c), run) && run[0] == Start(c)
  }

  /** Neither side can do anything any more. */
  ghost predicate AtRest(c: Config, s: State)
  {
    forall step :: !Enabled(c, s, step)
  }

  ghost predicate Inv(c: Config, s: State)
  {
    && s.sent <= |c.msg| && |s.chan| <= c.cap && s.written + |s.chan| == s.sent
    && s.written <= c.recvSize && |s.buf| == c.recvSize
    && s.buf == c.msg[..s.written] + Zeros(c.recvSize - s.written)
    && s.chan == c.msg[s.written..s.sent]
    && (s.sender == Sent ==> s.sent == |c.msg|)
    && (s.sender == Broken ==> s.receiver == Gone && s.sent < |c.msg|)
    && (s.receiver != Receiving ==> s.written == Min(c.recvSize, |c.msg|))
  }

  ghost function InvFn(c: Config): State -> bool { s => Inv(c, s) }

  function Remaining(c: Config, s: State): int
  {
    2 * (|c.msg| - s.sent) + |s.chan| + (if s.sender == Sending then 1 else 0)
    + match s.receiver case Receiving => 2 case Received => 1 case Gone => 0
  }

  lemma SendKeepsInv(c: Config, s: State, k: nat)
    requires Inv(c, s) && Enabled(c, s, Send(k))
    ensures Inv(c, Apply(c, s, Send(k)))
  {
    assert c.msg[s.written..s.sent] + c.msg[s.sent..s.sent + k] == c.msg[s.written..s.sent + k];
  }

  lemma RecvKeepsInv(c: Config, s: State, k: nat)
    requires Inv(c, s) && Enabled(c, s, Recv(k))
    ensures Inv(c, Apply(c, s, Recv(k)))
  {
    var got := s.written + k;
    assert s.chan[..k] == c.msg[s.written..got];
    assert s.chan[k..] == c.msg[got..s.sent];
    assert c.msg[..s.written] + c.msg[s.written..got] == c.msg[..got];
    assert s.buf[..s.written] == c.msg[..s.written];
    assert s.buf[got..] == Zeros(c.recvSize - got);
  }

  lemma StepKeepsInv(c: Config, s: State, step: Step)
    requires Inv(c, s) && Enabled(c, s, step)
    ensures Inv(c, Apply(c, s, step)) && Remaining(c, Apply(c, s, step)) < Remaining(c, s)
  {
    match step
    case Send(k) => SendKeepsInv(c, s, k);
    case Recv(k) => RecvKeepsInv(c, s, k);
    case _ =>
  }

  lemma RunsKeepInv(c: Config, run: seq<State>, k: nat)
    requires IsTransfer(c, run) && k < |run|
    ensures Inv(c, run[k]) && |run| - 1 <= Remaining(c, run[0]) - Remaining(c, Last(run))
  {
    forall s, s' | InvFn(c)(s) && NextRel(c)(s, s')
      ensures InvFn(c)(s') && Remaining(c, s') < Remaining(c, s)
    {
      var step :| Enabled(c, s, step) && s' == Apply(c, s, step);
      StepKeepsInv(c, s, step);
    }
    InvariantHolds(NextRel(c), InvFn(c), run, k);
    MeasureBoundsRun(NextRel(c), InvFn(c), s => Remaining(c, s), run);
  }

  /** At every state the receiver's buffer is a prefix of the message followed by the zeros set beforehand. */
  lemma BufferIsPrefix(c: Config, run: seq<State>, k: nat)
    requires IsTransfer(c, run) && k < |run|
    ensures run[k].written <= |c.msg| && run[k].written <= c.recvSize
    ensures run[k].buf == c.msg[..run[k].written] + Zeros(c.recvSize - run[k].written)
  {
    RunsKeepInv(c, run, k);
  }

  /** How a transfer has ended: the receiver has the message, cut to its buffer and followed by zeros; the sender
      is done too, well if the message fits the buffer and badly if it does not even fit buffer and channel. */
  ghost predicate Transferred(c: Config, s: State)
  {
    var n := Min(c.recvSize, |c.msg|);
    && s.receiver == Gone && s.buf == c.msg[..n] + Zeros(c.recvSize - n)
    && s.sender != Sending && (s.sender == Sent <==> s.sent == |c.msg|)
    && (|c.msg| <= c.recvSize ==> s.sender == Sent && s.buf == c.msg + Zeros(c.recvSize - |c.msg|))
    && (|c.msg| > c.recvSize + c.cap ==> s.sender == Broken)
  }

  lemma RestIsTheEnd(c: Config, s: State)
    requires c.cap >= 1 && Inv(c, s) && AtRest(c, s)
    ensures Transferred(c, s)
  {
    assert !Enabled(c, s, Send(1)) && !Enabled(c, s, SendFails) && !Enabled(c, s, SenderCloses);
    assert !Enabled(c, s, Recv(1)) && !Enabled(c, s, RecvZero) && !Enabled(c, s, ReceiverCloses);
    assert c.msg[..|c.msg|] == c.msg;
  }

  /** Every interleaving of the two loops and their closes is bounded, and ends as it should. */
  lemma TransferRoundTrip(c: Config, run: seq<State>)
    requires c.cap >= 1 && IsTransfer(c, run)
    ensures |run| <= 2 * |c.msg| + 4
    ensures AtRest(c, Last(run)) ==> Transferred(c, Last(run))
  {
    RunsKeepInv(c, run, |run| - 1);
    if AtRest(c, Last(run)) {
      RestIsTheEnd(c, Last(run));
    }
  }

  ghost predicate Reaches(c: Config, sender: Sender)
  {
    exists run :: IsTransfer(c, run) && Last(run).sender == sender
  }

  /** Both sides are in their loops, and n bytes have crossed. */
  predicate Halfway(c: Config, s: State, n: nat)
  {
    && s.sender == Sending && s.receiver == Receiving
    && s.chan == [] && s.sent == s.written == n && |s.buf| == c.recvSize
  }

  /** The first n bytes can cross one at a time. */
  lemma Relayed(c: Config, n: nat) returns (run: seq<State>)
    requires c.cap >= 1 && n <= |c.msg| && n <= c.recvSize
    ensures IsTransfer(c, run)
    ensures Halfway(c, Last(run), n)
  {
    run := [Start(c)];
    for i := 0 to n
      invariant IsTransfer(c, run) && Halfway(c, Last(run), i)
    {
      run := ExtendRun(NextRel(c), run, Apply(c, Last(run), Send(1)));
      run := ExtendRun(NextRel(c), run, Apply(c, Last(run), Recv(1)));
    }
  }

  /** The sender can fail exactly when the message is longer than the receiver's buffer. */
  lemma SenderFailsIff(c: Config)
    requires c.cap >= 1
    ensures Reaches(c, Broken) <==> |c.msg| > c.recvSize
  {
    if |c.msg| > c.recvSize {
      var run := Relayed(c, c.recvSize);
      run := ExtendRun(NextRel(c), run, Apply(c, Last(run), RecvZero));
      run := ExtendRun(NextRel(c), run, Apply(c, Last(run), ReceiverCloses));
      run := ExtendRun(NextRel(c), run, Apply(c, Last(run), SendFails));
    }
    if Reaches(c, Broken) {
      var run :| IsTransfer(c, run) && Last(run).sender == Broken;
      RunsKeepInv(c, run, |run| - 1);
    }
  }

  /** It can return 0 exactly when the message fits the receiver's buffer and the channel together. */
  lemma SenderSucceedsIff(c: Config)
    requires c.cap >= 1
    ensures Reaches(c, Sent) <==> |c.msg| <= c.recvSize + c.cap
  {
    var n := Min(c.recvSize, |c.msg|);
    if |c.msg| <= c.recvSize + c.cap {
      var run := Relayed(c, n);
      if n < |c.msg| {
        run := ExtendRun(NextRel(c), run, Apply(c, Last(run), Send(|c.msg| - n)));
      }
      run := ExtendRun(NextRel(c), run, Apply(c, Last(run), SenderCloses));
    }
    if Reaches(c, Sent) {
      var run :| IsTransfer(c, run) && Last(run).sender == Sent;
      RunsKeepInv(c, run, |run| - 1);
    }
  }
}
