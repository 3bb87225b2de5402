/** The echo client against the echo server: the client writes a message, then reads
    exactly as many bytes back, while the server echoes chunk by chunk. */
module EchoRound {
  import opened Bytes
  import opened Runs
  import EchoLink

  /** `shortWrites` says whether the client's write() may return before it has accepted everything. */
  datatype Config = Config(link: EchoLink.Config, shortWrites: bool)
  {
    predicate Valid() { link.Valid() }
  }

  /** Where the client stands. `Writing`: write() has accepted `sent` bytes of `msg` so far.
      `Receiving`: write() returned `sent`; `got` is what the inner loop has put into rcvBuffer. */
  datatype Client =
    | Idle
    | Writing(msg: seq<byte>, sent: nat)
    | Receiving(msg: seq<byte>, sent: nat, got: seq<byte>)
    | Closed

  /** A finished round: the message, how much of it write() accepted, and the echo printed. */
  datatype Round = Round(msg: seq<byte>, sent: nat, echo: seq<byte>)

  datatype State = State(link: EchoLink.Link, client: Client, log: seq<Round>)

  const START := State(EchoLink.FRESH_LINK, Idle, [])

  datatype Step =
    | Begin(msg: seq<byte>)
    | Push(k: nat)
    | WriteReturns
    | Receive(k: nat)
    | Finish
    | Quit
    | Server(step: EchoLink.Step)

  predicate Enabled(c: Config, s: State, step: Step)
  {
    match step
    case Begin(msg) => s.client.Idle?
    case Push(k) =>
      && s.client.Writing? && 1 <= k && s.client.sent + k <= |s.client.msg|
      && EchoLink.Enabled(c.link, s.link, EchoLink.Push(s.client.msg[s.client.sent..s.client.sent + k]))
    case WriteReturns =>
      && s.client.Writing?
      && (s.client.sent == |s.client.msg| || (c.shortWrites && s.client.sent > 0))
    case Receive(k) =>
      && s.client.Receiving? && |s.client.got| + k <= s.client.sent
      && EchoLink.Enabled(c.link, s.link, EchoLink.Pull(k))
    case Finish => s.client.Receiving? && |s.client.got| == s.client.sent
    case Quit => s.client.Idle? && !s.link.eof
    case Server(step) => EchoLink.ServerStep(step) && EchoLink.Enabled(c.link, s.link, step)
  }

  function Apply(c: Config, s: State, step: Step): State
    requires Enabled(c, s, step)
  {
    match step
    case Begin(msg) => s.(client := Writing(msg, 0))
    case Push(k) =>
      var a := s.client.sent;
      s.(link := EchoLink.Apply(c.link, s.link, EchoLink.Push(s.client.msg[a..a + k])),
         client := Writing(s.client.msg, a + k))
    case WriteReturns => s.(client := Receiving(s.client.msg, s.client.sent, []))
    case Receive(k) =>
      s.(link := EchoLink.Apply(c.link, s.link, EchoLink.Pull(k)),
         client := Receiving(s.client.msg, s.client.sent, s.client.got + s.link.down[..k]))
    case Finish =>
      s.(client := Idle, log := s.log + [Round(s.client.msg, s.client.sent, s.client.got)])
    case Quit => s.(link := EchoLink.Apply(c.link, s.link, EchoLink.CloseUp), client := Closed)
    case Server(step) => s.(link := EchoLink.Apply(c.link, s.link, step))
  }

  ghost predicate Next(c: Config, s: State, s': State)
  {
    exists step :: Enabled(c, s, step) && s' == Apply(c, s, step)
  }

  ghost function NextRel(c: Config): (State, State) -> bool { (s, s') => Next(c, s, s') }

  // ---- histories

  /** All bytes the finished rounds' write() calls accepted, in order. */
  function SentBytes(log: seq<Round>): seq<byte>
  {
    if log == [] then []
    else
      var r := log[|log| - 1];
      SentBytes(log[..|log| - 1]) + if r.sent <= |r.msg| then r.msg[..r.sent] else r.msg
  }

  function EchoedBytes(log: seq<Round>): seq<byte>
  {
    if log == [] then [] else EchoedBytes(log[..|log| - 1]) + log[|log| - 1].echo
  }

  /** Bytes of the current round that write() has accepted. */
  function SentNow(client: Client): seq<byte>
  {
    if (client.Writing? || client.Receiving?) && client.sent <= |client.msg| then client.msg[..client.sent] else []
  }

  function GotNow(client: Client): seq<byte>
  {
    if client.Receiving? then client.got else []
  }

  ghost predicate RoundOk(c: Config, r: Round)
  {
    && r.sent <= |r.msg| && r.echo == r.msg[..r.sent]
    && (!c.shortWrites ==> r.echo == r.msg)
  }

  // ---- the invariant

  ghost predicate ClientInv(c: Config, s: State)
  {
    && (s.client.Writing? || s.client.Receiving? ==> s.client.sent <= |s.client.msg|)
    && (s.client.Receiving? && !c.shortWrites ==> s.client.sent == |s.client.msg|)
    && (s.link.eof <==> s.client.Closed?)
  }

  /** What the client has got of this round, and what is in flight, is what it sent. */
  ghost predicate RoundInv(s: State)
  {
    GotNow(s.client) + EchoLink.InFlight(s.link) == SentNow(s.client)
  }

  ghost predicate Histories(s: State)
  {
    && s.link.input == SentBytes(s.log) + SentNow(s.client)
    && s.link.output == EchoedBytes(s.log) + GotNow(s.client)
  }

  ghost predicate LogOk(c: Config, log: seq<Round>)
  {
    forall i :: 0 <= i < |log| ==> RoundOk(c, log[i])
  }

  ghost predicate Inv(c: Config, s: State)
  {
    && ClientInv(c, s)
    && EchoLink.Conserved(c.link, s.link)
    && RoundInv(s)
    && Histories(s)
    && LogOk(c, s.log)
  }

  lemma Assoc(a: seq<byte>, b: seq<byte>, c: seq<byte>)
    ensures a + (b + c) == a + b + c
  {
  }

  lemma PushKeepsRound(c: Config, s: State, k: nat)
    requires Enabled(c, s, Push(k)) && RoundInv(s) && Histories(s)
    ensures RoundInv(Apply(c, s, Push(k))) && Histories(Apply(c, s, Push(k)))
  {
    var msg, sent := s.client.msg, s.client.sent;
    var bytes := msg[sent..sent + k];
    assert msg[..sent + k] == msg[..sent] + bytes;
    EchoLink.StepInFlight(c.link, s.link, EchoLink.Push(bytes));
    Assoc(SentBytes(s.log), msg[..sent], bytes);
    Assoc([], EchoLink.InFlight(s.link), bytes);
  }

  lemma PushKeepsInv(c: Config, s: State, k: nat)
    requires Inv(c, s) && Enabled(c, s, Push(k))
    ensures Inv(c, Apply(c, s, Push(k)))
  {
    PushKeepsRound(c, s, k);
    EchoLink.StepConserves(c.link, s.link, EchoLink.Push(s.client.msg[s.client.sent..s.client.sent + k]));
  }

  lemma ReceiveKeepsRound(c: Config, s: State, k: nat)
    requires Enabled(c, s, Receive(k)) && RoundInv(s) && Histories(s)
    ensures RoundInv(Apply(c, s, Receive(k))) && Histories(Apply(c, s, Receive(k)))
  {
    var bytes := s.link.down[..k];
    EchoLink.StepInFlight(c.link, s.link, EchoLink.Pull(k));
    Assoc(s.client.got, bytes, EchoLink.InFlight(Apply(c, s, Receive(k)).link));
    Assoc(EchoedBytes(s.log), s.client.got, bytes);
  }

  lemma ReceiveKeepsInv(c: Config, s: State, k: nat)
    requires Inv(c, s) && Enabled(c, s, Receive(k))
    ensures Inv(c, Apply(c, s, Receive(k)))
  {
    ReceiveKeepsRound(c, s, k);
    EchoLink.StepConserves(c.link, s.link, EchoLink.Pull(k));
  }

  lemma RoundIsOver(c: Config, s: State)
    requires ClientInv(c, s) && RoundInv(s) && Enabled(c, s, Finish)
    ensures EchoLink.InFlight(s.link) == []
    ensures s.client.got == s.client.msg[..s.client.sent]
  {
    assert |s.client.got + EchoLink.InFlight(s.link)| == |s.client.got| + |EchoLink.InFlight(s.link)|;
  }

  lemma FinishKeepsHistories(c: Config, s: State)
    requires ClientInv(c, s) && RoundInv(s) && Histories(s) && Enabled(c, s, Finish)
    ensures RoundInv(Apply(c, s, Finish)) && Histories(Apply(c, s, Finish))
  {
    RoundIsOver(c, s);
    var r := Round(s.client.msg, s.client.sent, s.client.got);
    assert (s.log + [r])[..|s.log|] == s.log;
    assert SentBytes(s.log + [r]) == SentBytes(s.log) + r.msg[..r.sent];
    assert EchoedBytes(s.log + [r]) == EchoedBytes(s.log) + r.echo;
  }

  lemma FinishKeepsLog(c: Config, s: State)
    requires ClientInv(c, s) && RoundInv(s) && LogOk(c, s.log) && Enabled(c, s, Finish)
    ensures LogOk(c, Apply(c, s, Finish).log)
  {
    RoundIsOver(c, s);
  }

  lemma FinishKeepsInv(c: Config, s: State)
    requires Inv(c, s) && Enabled(c, s, Finish)
    ensures Inv(c, Apply(c, s, Finish))
  {
    FinishKeepsLog(c, s);
    FinishKeepsHistories(c, s);
  }

  lemma ServerKeepsInv(c: Config, s: State, step: EchoLink.Step)
    requires Inv(c, s) && Enabled(c, s, Server(step))
    ensures Inv(c, Apply(c, s, Server(step)))
  {
    EchoLink.StepConserves(c.link, s.link, step);
    EchoLink.StepInFlight(c.link, s.link, step);
  }

  lemma StepKeepsInv(c: Config, s: State, step: Step)
    requires Inv(c, s) && Enabled(c, s, step)
    ensures Inv(c, Apply(c, s, step))
  {
    match step
    case Begin(msg) => assert msg[..0] == [];
    case Push(k) => PushKeepsInv(c, s, k);
    case WriteReturns =>
    case Receive(k) => ReceiveKeepsInv(c, s, k);
    case Finish => FinishKeepsInv(c, s);
    case Quit =>
    case Server(step) => ServerKeepsInv(c, s, step);
  }

  lemma RunsKeepInv(c: Config, run: seq<State>, k: nat)
    requires IsRun(NextRel(c), run) && Inv(c, run[0]) && k < |run|
    ensures Inv(c, run[k])
  {
    forall s, s' | Inv(c, s) && NextRel(c)(s, s') ensures Inv(c, s') {
      var step :| Enabled(c, s, step) && s' == Apply(c, s, step);
      StepKeepsInv(c, s, step);
    }
    InvariantHolds(NextRel(c), s => Inv(c, s), run, k);
  }

  // ---- what the rounds promise

  /** Conservation at every state of every run, whatever the chunking and however many rounds:
      received ++ coming down ++ in the server ++ going up is exactly what all rounds sent. */
  lemma EchoConservation(c: Config, run: seq<State>, k: nat)
    requires IsRun(NextRel(c), run) && run[0] == START && k < |run|
    ensures var l := run[k].link;
            && l.output + l.down + l.server + l.up == SentBytes(run[k].log) + SentNow(run[k].client)
            && l.output == EchoedBytes(run[k].log) + GotNow(run[k].client)
  {
    RunsKeepInv(c, run, k);
    var l := run[k].link;
    assert l.output + l.down + l.server + l.up == l.output + EchoLink.InFlight(l);
  }

  /** Every printed echo is the prefix of its own message that write() accepted: the whole message
      when writes are not short. */
  lemma RoundsAreCorrect(c: Config, run: seq<State>, k: nat, i: nat)
    requires IsRun(NextRel(c), run) && run[0] == START && k < |run| && i < |run[k].log|
    ensures RoundOk(c, run[k].log[i])
  {
    RunsKeepInv(c, run, k);
  }

  /** When the inner loop is about to leave (n_left == 0), the echo is complete and nothing of it,
      nor of any other round, is left in either channel or in the server. */
  lemma RoundsAreIsolated(c: Config, run: seq<State>, k: nat)
    requires IsRun(NextRel(c), run) && run[0] == START && k < |run|
    requires Enabled(c, run[k], Finish)
    ensures run[k].client.sent <= |run[k].client.msg|
    ensures run[k].client.got == run[k].client.msg[..run[k].client.sent]
    ensures run[k].link.up == [] && run[k].link.server == [] && run[k].link.down == []
  {
    RunsKeepInv(c, run, k);
    RoundIsOver(c, run[k]);
    assert |EchoLink.InFlight(run[k].link)| == 0;
  }
}
