/** The echo client's own loops, over its two buffers, interleaved with the server's loop by an
    arbitrary scheduler. Each atomic action appends one state to `trace`, which is always a run
    of EchoRound; what that machine promises therefore holds here. */
module EchoProcess {
  import opened Bytes
  import opened Runs
  import EchoLink
  import opened EchoRound
  import EchoProgress

  const QUIT: seq<byte> := [113, 117, 105, 116, 10]  // "quit\n"

  /** What the client should print for the lines its user types: the echo of each line up to "quit".
      An empty read stands for end of file or an error, after which the client just tries again. */
  function Echoes(lines: seq<seq<byte>>): seq<seq<byte>>
  {
    if lines == [] then []
    else if lines[0] == [] then Echoes(lines[1..])
    else if CStr(lines[0]) == QUIT then []
    else [CStr(lines[0])] + Echoes(lines[1..])
  }

  predicate Quits(lines: seq<seq<byte>>)
  {
    lines != [] && ((lines[0] != [] && CStr(lines[0]) == QUIT) || Quits(lines[1..]))
  }

  /** The word that ends the conversation, wherever it comes. */
  lemma QuitEndsIt(lines: seq<seq<byte>>)
    ensures Quits([Ascii("quit\n")] + lines) && Echoes([Ascii("quit\n")] + lines) == []
    ensures Echoes([Ascii("quit")] + lines) == [Ascii("quit")] + Echoes(lines)
  {
    var word, other := Ascii("quit\n"), Ascii("quit");
    assert word == QUIT && other == QUIT[..4];
    CStrUnique(word, word);
    CStrUnique(other, other);
    assert ([other] + lines)[1..] == lines;
  }

  /** Each printed line is a prefix of what was due, and all of it unless writes are short. */
  ghost predicate Answers(c: Config, due: seq<seq<byte>>, printed: seq<seq<byte>>)
  {
    && |printed| == |due|
    && (forall i :: 0 <= i < |printed| ==> printed[i] <= due[i])
    && (!c.shortWrites ==> printed == due)
  }

  function Rounds(due: seq<seq<byte>>, printed: seq<seq<byte>>): seq<Round>
    requires |due| == |printed|
  {
    seq(|due|, i requires 0 <= i < |due| => Round(due[i], |printed[i]|, printed[i]))
  }

  /** A write of `len` bytes returns: it cannot block for ever or, with short writes, is taken to be interrupted
      by a signal when it would. */
  predicate Fits(c: Config, len: nat) { c.shortWrites || len <= c.link.cUp + c.link.cDown + 1 }

  /** After the first i lines: what was due so far, what was printed, and the rounds logged for it. */
  ghost predicate SoFar(c: Config, lines: seq<seq<byte>>, i: nat, due: seq<seq<byte>>, printed: seq<seq<byte>>,
                        before: seq<Round>, log: seq<Round>)
  {
    && i <= |lines|
    && Echoes(lines) == due + Echoes(lines[i..]) && Quits(lines) == Quits(lines[i..])
    && Answers(c, due, printed) && log == before + Rounds(due, printed)
  }

  lemma SkipLine(c: Config, lines: seq<seq<byte>>, i: nat, due: seq<seq<byte>>, printed: seq<seq<byte>>,
                 before: seq<Round>, log: seq<Round>)
    requires SoFar(c, lines, i, due, printed, before, log) && i < |lines| && lines[i] == []
    ensures SoFar(c, lines, i + 1, due, printed, before, log)
  {
    assert lines[i..][1..] == lines[i + 1..];
  }

  lemma QuitLine(c: Config, lines: seq<seq<byte>>, i: nat, due: seq<seq<byte>>, printed: seq<seq<byte>>,
                 before: seq<Round>, log: seq<Round>)
    requires SoFar(c, lines, i, due, printed, before, log)
    requires i < |lines| && lines[i] != [] && CStr(lines[i]) == QUIT
    ensures Quits(lines) && Echoes(lines) == due
  {
    assert Echoes(lines[i..]) == [];
  }

  lemma RoundsSnoc(due: seq<seq<byte>>, printed: seq<seq<byte>>, d: seq<byte>, p: seq<byte>)
    requires |due| == |printed|
    ensures Rounds(due + [d], printed + [p]) == Rounds(due, printed) + [Round(d, |p|, p)]
  {
  }

  lemma EchoLine(c: Config, lines: seq<seq<byte>>, i: nat, due: seq<seq<byte>>, printed: seq<seq<byte>>,
                 before: seq<Round>, log: seq<Round>, echo: seq<byte>)
    requires SoFar(c, lines, i, due, printed, before, log)
    requires i < |lines| && lines[i] != [] && CStr(lines[i]) != QUIT
    requires echo <= CStr(lines[i]) && (!c.shortWrites ==> echo == CStr(lines[i]))
    ensures SoFar(c, lines, i + 1, due + [CStr(lines[i])], printed + [echo],
                  before, log + [Round(CStr(lines[i]), |echo|, echo)])
  {
    var d, rest := CStr(lines[i]), Echoes(lines[i + 1..]);
    assert lines[i..][1..] == lines[i + 1..];
    assert Echoes(lines[i..]) == [d] + rest;
    assert due + ([d] + rest) == due + [d] + rest;
    RoundsSnoc(due, printed, d, echo);
    var r := [Round(d, |echo|, echo)];
    assert before + Rounds(due, printed) + r == before + (Rounds(due, printed) + r);
  }

  ghost predicate Traced(c: Config, trace: seq<State>, s: State)
  {
    IsRun(NextRel(c), trace) && trace[0] == START && Last(trace) == s
  }

  /** One step of the server: the client is where it was, and the round is nearer to its end. */
  ghost predicate ServerStepped(c: Config, s: State, s': State)
  {
    && (exists step :: EchoLink.ServerStep(step) && Enabled(c, s, Server(step)) && s' == Apply(c, s, Server(step)))
    && s'.client == s.client && s'.log == s.log && EchoProgress.Weight(s') < EchoProgress.Weight(s)
  }

  class EchoSystem {
    const c: Config
    // the two socket buffers
    var up: seq<byte>
    var down: seq<byte>
    // the server: rcvBuffer, of which [srvDone..srvN] is still to be written back
    const srvBuffer: array<byte>
    var srvDone: nat
    var srvN: nat
    // the client
    const sndBuffer: array<byte>
    const rcvBuffer: array<byte>
    // the state of EchoRound this stands for, and the run that led here
    ghost var s: State
    ghost var trace: seq<State>

    ghost predicate Valid()
      reads this, srvBuffer
    {
      && c.Valid()
      && srvBuffer != sndBuffer && srvBuffer != rcvBuffer && sndBuffer != rcvBuffer
      && srvBuffer.Length == sndBuffer.Length == rcvBuffer.Length == c.link.bufSize
      && srvDone <= srvN <= srvBuffer.Length
      && up == s.link.up && down == s.link.down && srvBuffer[srvDone..srvN] == s.link.server && !s.link.served
      && Traced(c, trace, s)
    }

    constructor (c: Config)
      requires c.Valid()
      ensures Valid() && this.c == c && s == START && trace == [START]
      ensures fresh(srvBuffer) && fresh(sndBuffer) && fresh(rcvBuffer)
    {
      this.c := c;
      up, down, srvDone, srvN := [], [], 0, 0;
      srvBuffer := new byte[c.link.bufSize];
      sndBuffer := new byte[c.link.bufSize];
      rcvBuffer := new byte[c.link.bufSize];
      s, trace := START, [START];
    }

    lemma Invariant()
      requires Traced(c, trace, s)
      ensures Inv(c, s)
    {
      RunsKeepInv(c, trace, |trace| - 1);
    }

    ghost method Took(step: Step)
      requires Traced(c, trace, s) && Enabled(c, s, step)
      modifies this`s, this`trace
      ensures s == Apply(c, old(s), step) && Traced(c, trace, s) && trace == old(trace) + [s]
      ensures EchoProgress.InRound(step) ==> EchoProgress.Weight(s) < EchoProgress.Weight(old(s))
    {
      Invariant();
      if EchoProgress.InRound(step) {
        EchoProgress.StepLowersWeight(c, s, step);
      }
      assert Next(c, s, Apply(c, s, step));
      s := Apply(c, s, step);
      trace := ExtendRun(NextRel(c), trace, s);
    }

    predicate ServerCanMove()
      reads this
    {
      (srvDone < srvN && |down| < c.link.cDown) || (srvDone == srvN && up != [])
    }

    /** The server's write() moves part of its chunk into the channel. */
    method ServerWrites()
      requires Valid() && srvDone < srvN && |down| < c.link.cDown
      modifies this`down, this`srvDone, this`s, this`trace
      ensures Valid() && ServerStepped(c, old(s), s) && trace == old(trace) + [s]
    {
      var k: nat :| 1 <= k <= srvN - srvDone && |down| + k <= c.link.cDown;
      assert srvBuffer[srvDone..srvN][..k] == srvBuffer[srvDone..srvDone + k];
      assert srvBuffer[srvDone..srvN][k..] == srvBuffer[srvDone + k..srvN];
      down := down + srvBuffer[srvDone..srvDone + k];
      srvDone := srvDone + k;
      Took(Server(EchoLink.ServerWrite(k)));
    }

    /** The server's read() fills the front of its buffer with another chunk. */
    method ServerReads()
      requires Valid() && srvDone == srvN && up != []
      modifies this`up, this`srvDone, this`srvN, this`s, this`trace, srvBuffer
      ensures Valid() && ServerStepped(c, old(s), s) && trace == old(trace) + [s]
    {
      var k: nat :| 1 <= k <= |up| && k <= c.link.bufSize;
      Took(Server(EchoLink.ServerRead(k)));
      forall i | 0 <= i < k {
        srvBuffer[i] := up[i];
      }
      assert srvBuffer[0..k] == up[..k];
      up, srvDone, srvN := up[k..], 0, k;
    }

    /** One step of the server's loop: write back part of its chunk or, when that is done, read another. */
    method ServerMove()
      requires Valid() && ServerCanMove()
      modifies this, srvBuffer
      ensures Valid() && ServerStepped(c, old(s), s) && trace == old(trace) + [s]
    {
      if srvDone < srvN {
        ServerWrites();
      } else {
        ServerReads();
      }
    }

    /** write() gets some more of the message into the channel. */
    method PushSome(n: nat, len: nat) returns (k: nat)
      requires Valid() && n < len <= sndBuffer.Length && |up| < c.link.cUp
      requires s.client == Writing(sndBuffer[..len], n)
      modifies this`up, this`s, this`trace
      ensures Valid() && 1 <= k <= len - n
      ensures s.client == Writing(sndBuffer[..len], n + k) && s.log == old(s.log)
      ensures EchoProgress.Weight(s) < EchoProgress.Weight(old(s))
    {
      k :| 1 <= k <= len - n && |up| + k <= c.link.cUp;
      assert sndBuffer[n..n + k] == sndBuffer[..len][n..n + k];
      Invariant();
      up := up + sndBuffer[n..n + k];
      Took(Push(k));
    }

    /** write(c_socket, sndBuffer, len): blocks until everything is accepted, or returns short. */
    method Write(len: nat) returns (n: nat)
      requires Valid() && len <= sndBuffer.Length && Fits(c, len)
      requires s.client == Writing(sndBuffer[..len], 0)
      modifies this, srvBuffer
      ensures Valid() && s.client == Receiving(sndBuffer[..len], n, []) && n <= len
      ensures !c.shortWrites ==> n == len
      ensures s.log == old(s).log
    {
      ghost var msg := sndBuffer[..len];
      n := 0;
      while n < len
        invariant Valid() && n <= len && s.client == Writing(msg, n)
        invariant s.log == old(s).log
        decreases EchoProgress.Weight(s)
      {
        Invariant();
        EchoProgress.InFlightWhileWriting(c, s);
        var first: bool, interrupted: bool := *, *;
        if c.shortWrites && n > 0 && (interrupted || (|up| == c.link.cUp && !ServerCanMove())) {
          break;
        } else if |up| < c.link.cUp && (first || !ServerCanMove()) {
          var k := PushSome(n, len);
          n := n + k;
        } else {
          ServerMove();
        }
      }
      Took(WriteReturns);
    }

    /** Blocks until a byte has come back, and maybe longer. */
    method AwaitData()
      requires Valid() && s.client.Receiving? && |s.client.got| < s.client.sent
      modifies this, srvBuffer
      ensures Valid() && down != [] && s.client == old(s.client) && s.log == old(s.log)
    {
      var dally: bool := *;
      while down == [] || (dally && ServerCanMove())
        invariant Valid() && s.client == old(s.client) && s.log == old(s.log)
        decreases EchoProgress.Weight(s)
      {
        Invariant();
        EchoProgress.InFlightCount(c, s);
        ServerMove();
        dally := *;
      }
    }

    /** read(c_socket, &rcvBuffer[off], len): blocks until a byte is there, then takes some of them. */
    method Read(off: nat, len: nat) returns (k: nat)
      requires Valid() && 1 <= len && off + len <= rcvBuffer.Length
      requires s.client.Receiving? && s.client.sent == off + len && s.client.got == rcvBuffer[..off]
      modifies this, srvBuffer, rcvBuffer
      ensures Valid() && 1 <= k <= len
      ensures s.client == old(s.client).(got := rcvBuffer[..off + k]) && s.log == old(s.log)
      ensures rcvBuffer[off + k..] == old(rcvBuffer[off + k..])
    {
      assert |s.client.got| == off;
      AwaitData();
      k :| 1 <= k <= len && k <= |down|;
      Took(Receive(k));
      forall i | 0 <= i < k {
        rcvBuffer[off + i] := down[i];
      }
      assert rcvBuffer[..off + k] == old(rcvBuffer[..off]) + down[..k];
      down := down[k..];
    }

    /** One pass of the client's outer loop: write the message in sndBuffer, read its echo back. */
    method EchoOnce(len: nat) returns (nRecv: nat)
      requires Valid() && len < sndBuffer.Length && Fits(c, len) && s.client == Idle
      modifies this, srvBuffer, rcvBuffer
      ensures Valid() && s.client == Idle && nRecv <= len
      ensures !c.shortWrites ==> nRecv == len
      ensures rcvBuffer[..nRecv] == sndBuffer[..nRecv]
      ensures s.log == old(s).log + [Round(sndBuffer[..len], nRecv, sndBuffer[..nRecv])]
      ensures up == [] && down == [] && srvDone == srvN
    {
      ghost var msg := sndBuffer[..len];
      Took(Begin(msg));
      var n := Write(len);
      var nLeft := n;
      nRecv := 0;
      while nLeft != 0
        invariant Valid() && nLeft >= 0 && nLeft + nRecv == n && sndBuffer[..len] == msg
        invariant s.client == Receiving(msg, n, rcvBuffer[..nRecv])
        invariant s.log == old(s).log
        decreases nLeft
      {
        var k := Read(nRecv, nLeft);
        nLeft := nLeft - k;
        nRecv := nRecv + k;
      }
      Invariant();
      RoundIsOver(c, s);
      EchoProgress.InFlightCount(c, s);
      Took(Finish);
    }

    /** The line as typed, with its terminator. What follows in the buffer is left from earlier lines. */
    method ReadLine(line: seq<byte>)
      requires |line| < sndBuffer.Length
      modifies sndBuffer
      ensures CStr(sndBuffer[..]) == CStr(line)
    {
      forall i | 0 <= i < |line| {
        sndBuffer[i] := line[i];
      }
      sndBuffer[|line|] := NUL;
      assert sndBuffer[..|line|] == line;
      CStrUnique(sndBuffer[..], CStr(line));
    }

    /** What the client does with one non-empty line. */
    method Turn(line: seq<byte>) returns (quit: bool, echo: seq<byte>)
      requires Valid() && s.client == Idle
      requires |line| < sndBuffer.Length && Fits(c, |CStr(line)|)
      modifies this, srvBuffer, sndBuffer, rcvBuffer
      ensures Valid() && quit == (CStr(line) == QUIT)
      ensures quit ==> s.client == Closed && s.log == old(s.log)
      ensures !quit ==> s.client == Idle && s.log == old(s.log) + [Round(CStr(line), |echo|, echo)]
      ensures !quit ==> echo <= CStr(line) && (!c.shortWrites ==> echo == CStr(line))
    {
      ReadLine(line);
      var text := CStr(sndBuffer[..]);
      quit, echo := text == QUIT, [];
      if quit {
        Invariant();
        Took(Quit);
        return;
      }
      var nRecv := EchoOnce(|text|);
      rcvBuffer[nRecv] := NUL;
      CStrUnique(rcvBuffer[..], rcvBuffer[..nRecv]);
      echo := CStr(rcvBuffer[..]);
      assert sndBuffer[..|text|] == text;
    }

    /** The client's main loop, for the lines its user types. */
    method Converse(lines: seq<seq<byte>>) returns (printed: seq<seq<byte>>)
      requires Valid() && s.client == Idle
      requires forall i :: 0 <= i < |lines| ==> |lines[i]| < sndBuffer.Length && Fits(c, |CStr(lines[i])|)
      modifies this, srvBuffer, sndBuffer, rcvBuffer
      ensures Valid() && s.client == if Quits(lines) then Closed else Idle
      ensures Answers(c, Echoes(lines), printed)
      ensures s.log == old(s.log) + Rounds(Echoes(lines), printed)
    {
      printed := [];
      ghost var due: seq<seq<byte>> := [];
      var i := 0;
      while i < |lines|
        invariant Valid() && s.client == Idle && SoFar(c, lines, i, due, printed, old(s.log), s.log)
      {
        if lines[i] == [] {
          SkipLine(c, lines, i, due, printed, old(s.log), s.log);
        } else {
          ghost var log := s.log;
          var quit, echo := Turn(lines[i]);
          if quit {
            QuitLine(c, lines, i, due, printed, old(s.log), log);
            return;
          }
          EchoLine(c, lines, i, due, printed, old(s.log), log, echo);
          printed, due := printed + [echo], due + [CStr(lines[i])];
        }
        i := i + 1;
      }
    }
  }
}
