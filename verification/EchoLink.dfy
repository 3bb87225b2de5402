/** One TCP connection to the echo server: two bounded byte channels and the server's
    read-chunk / write-chunk loop, with an arbitrary peer at the client end. */
module EchoLink {
  import opened Bytes
  import opened Runs

  /** `cUp` and `cDown` bound the bytes in flight in each direction, `bufSize` is the server's BUFSIZ. */
  datatype Config = Config(cUp: nat, cDown: nat, bufSize: nat)
  {
    predicate Valid() { cUp >= 1 && cDown >= 1 && bufSize >= 1 }
  }

  /** `input` is every byte the client's end has accepted, `output` every byte it has been handed back.
      `server` is the part of the server's chunk not yet written back. */
  datatype Link = Link(input: seq<byte>, up: seq<byte>, server: seq<byte>, down: seq<byte>,
                       output: seq<byte>, eof: bool, served: bool)

  const FRESH_LINK := Link([], [], [], [], [], false, false)

  datatype Step =
    | Push(bytes: seq<byte>)  // the client's kernel accepts bytes
    | Pull(k: nat)            // the client reads k bytes
    | CloseUp                 // the client closes its end
    | ServerRead(k: nat)      // read() hands the server a chunk of k bytes
    | ServerWrite(k: nat)     // write() moves k bytes of the chunk into the channel
    | ServerEof               // read() returns 0 and the loop ends

  predicate ServerStep(step: Step) { step.ServerRead? || step.ServerWrite? || step.ServerEof? }

  predicate Enabled(c: Config, l: Link, step: Step)
  {
    match step
    case Push(bytes) => !l.eof && 1 <= |bytes| && |l.up| + |bytes| <= c.cUp
    case Pull(k) => 1 <= k <= |l.down|
    case CloseUp => !l.eof
    case ServerRead(k) => !l.served && l.server == [] && 1 <= k <= |l.up| && k <= c.bufSize
    case ServerWrite(k) => !l.served && 1 <= k <= |l.server| && |l.down| + k <= c.cDown
    case ServerEof => !l.served && l.server == [] && l.up == [] && l.eof
  }

  function Apply(c: Config, l: Link, step: Step): Link
    requires Enabled(c, l, step)
  {
    match step
    case Push(bytes) => l.(input := l.input + bytes, up := l.up + bytes)
    case Pull(k) => l.(down := l.down[k..], output := l.output + l.down[..k])
    case CloseUp => l.(eof := true)
    case ServerRead(k) => l.(up := l.up[k..], server := l.up[..k])
    case ServerWrite(k) => l.(server := l.server[k..], down := l.down + l.server[..k])
    case ServerEof => l.(served := true)
  }

  ghost predicate Next(c: Config, l: Link, l': Link)
  {
    exists step :: Enabled(c, l, step) && l' == Apply(c, l, step)
  }

  ghost function NextRel(c: Config): (Link, Link) -> bool { (l, l') => Next(c, l, l') }

  /** Bytes accepted from the client and not yet handed back, oldest first. */
  function InFlight(l: Link): seq<byte> { l.down + l.server + l.up }

  ghost predicate Conserved(c: Config, l: Link)
  {
    && l.input == l.output + InFlight(l)
    && |l.up| <= c.cUp && |l.down| <= c.cDown && |l.server| <= c.bufSize
    && (l.served ==> l.eof && l.up == [] && l.server == [])
  }

  /** Moving the cut between two adjacent places does not change what is in them. */
  lemma MoveCut(a: seq<byte>, b: seq<byte>, k: nat)
    requires k <= |b|
    ensures a + b[..k] + b[k..] == a + b
  {
    assert b[..k] + b[k..] == b;
    assert a + b[..k] + b[k..] == a + (b[..k] + b[k..]);
  }

  lemma ServerStepInFlight(c: Config, l: Link, step: Step)
    requires ServerStep(step) && Enabled(c, l, step)
    ensures InFlight(Apply(c, l, step)) == InFlight(l)
  {
    match step
    case ServerRead(k) =>
      MoveCut(l.down, l.up, k);
      assert l.down + [] == l.down;
    case ServerWrite(k) => MoveCut(l.down, l.server, k);
    case ServerEof =>
  }

  lemma PullInFlight(l: Link, k: nat)
    requires k <= |l.down|
    ensures InFlight(l) == l.down[..k] + InFlight(l.(down := l.down[k..]))
  {
    MoveCut([], l.down, k);
    assert l.down[..k] + l.down[k..] == l.down;
    assert l.down[..k] + (l.down[k..] + l.server + l.up) == l.down[..k] + l.down[k..] + l.server + l.up;
  }

  /** What each step does to the bytes in flight. */
  lemma StepInFlight(c: Config, l: Link, step: Step)
    requires Enabled(c, l, step)
    ensures var l' := Apply(c, l, step);
            match step
            case Push(bytes) => InFlight(l') == InFlight(l) + bytes
            case Pull(k) => InFlight(l) == l.down[..k] + InFlight(l')
            case _ => InFlight(l') == InFlight(l)
  {
    match step
    case Push(bytes) => assert l.down + l.server + (l.up + bytes) == l.down + l.server + l.up + bytes;
    case Pull(k) => PullInFlight(l, k);
    case CloseUp =>
    case _ => ServerStepInFlight(c, l, step);
  }

  lemma StepConserves(c: Config, l: Link, step: Step)
    requires Conserved(c, l) && Enabled(c, l, step)
    ensures Conserved(c, Apply(c, l, step))
  {
    StepInFlight(c, l, step);
    match step
    case Push(bytes) => assert l.output + (InFlight(l) + bytes) == l.output + InFlight(l) + bytes;
    case Pull(k) =>
      var rest := InFlight(Apply(c, l, step));
      assert l.output + (l.down[..k] + rest) == l.output + l.down[..k] + rest;
    case _ =>
  }

  /** At every state of every run: what came back is a prefix of what was sent, nothing is lost,
      duplicated or reordered, and once the server has seen end of stream all of it is on its way back. */
  lemma EchoIsPrefix(c: Config, run: seq<Link>, k: nat)
    requires IsRun(NextRel(c), run) && run[0] == FRESH_LINK && k < |run|
    ensures Conserved(c, run[k])
    ensures run[k].output <= run[k].input
    ensures run[k].served ==> run[k].output + run[k].down == run[k].input
  {
    forall l, l' | Conserved(c, l) && NextRel(c)(l, l') ensures Conserved(c, l') {
      var step :| Enabled(c, l, step) && l' == Apply(c, l, step);
      StepConserves(c, l, step);
    }
    InvariantHolds(NextRel(c), l => Conserved(c, l), run, k);
    var l := run[k];
    if l.served {
      assert InFlight(l) == l.down;
    }
  }
}
