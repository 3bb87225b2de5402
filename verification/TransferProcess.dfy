/** The bodies of partial_message_send and partial_message_recv over their own buffers, one call at a time and
    interleaved by an arbitrary scheduler. `trace` is the run of PartialTransfer executed so far. */
module TransferProcess {
  import opened Bytes
  import opened Runs
  import opened Sockets
  import opened PartialTransfer

  class Transfer {
    const cap: nat
    var chan: seq<byte>
    // the sender
    const message: array<byte>
    var sent: nat
    var sender: Sender
    // the receiver
    const buf: array<byte>
    var written: nat
    var receiver: Receiver
    // what is being sent, and the run that led here
    ghost const c: Config
    ghost var trace: seq<State>

    ghost function Abs(): State
      reads this, buf
    {
      State(sent, sender, chan, buf[..], written, receiver)
    }

    ghost predicate Valid()
      reads this, message, buf
    {
      && message != buf && c == Config(message[..], buf.Length, cap) && cap >= 1
      && IsTransfer(c, trace) && Last(trace) == Abs()
    }

    constructor (message: array<byte>, size: nat, cap: nat)
      requires cap >= 1 && message.Length <= INT_MAX && size <= INT_MAX
      ensures Valid() && this.message == message && buf.Length == size && this.cap == cap && fresh(buf)
      ensures c.msg == message[..] && Abs() == Start(c)
    {
      this.message, this.cap := message, cap;
      chan, sent, sender, written, receiver := [], 0, Sending, 0, Receiving;
      buf := new byte[size](_ => NUL);
      c := Config(message[..], size, cap);
      trace := [Start(Config(message[..], size, cap))];
      new;
      assert buf[..] == Zeros(size);
    }

    lemma Invariant()
      requires IsTransfer(c, trace)
      ensures Inv(c, Last(trace))
    {
      RunsKeepInv(c, trace, |trace| - 1);
    }

    ghost method Took(step: Step)
      requires message != buf && c == Config(message[..], buf.Length, cap) && cap >= 1
      requires IsTransfer(c, trace) && Enabled(c, Last(trace), step) && Abs() == Apply(c, Last(trace), step)
      modifies this`trace
      ensures Valid() && trace == old(trace) + [Abs()]
      ensures Remaining(c, Abs()) < Remaining(c, Last(old(trace)))
    {
      Invariant();
      StepKeepsInv(c, Last(trace), step);
      assert Next(c, Last(trace), Abs());
      trace := ExtendRun(NextRel(c), trace, Abs());
    }

    predicate SenderCanMove()
      reads this, message
    {
      sender == Sending && (receiver == Gone || |chan| < cap || sent >= message.Length)
    }

    predicate ReceiverCanMove()
      reads this, buf
    {
      receiver == Received
      || (receiver == Receiving && (chan != [] || sender != Sending || written >= buf.Length))
    }

    /** The sender's next call: another send(), which fails when the receiver has closed; or, once the loop is over,
        close(). Nothing of the receiver's changes. */
    method SenderMove()
      requires Valid() && SenderCanMove()
      modifies this`chan, this`sent, this`sender, this`trace
      ensures Valid() && trace == old(trace) + [Abs()]
      ensures Remaining(c, Abs()) < Remaining(c, old(Abs()))
    {
      Invariant();
      ghost var step := SenderCloses;
      if sent >= message.Length {
        sender := Sent;
      } else if receiver == Gone {
        sender := Broken;
        step := SendFails;
      } else {
        var k: nat :| 1 <= k <= message.Length - sent && |chan| + k <= cap;
        chan, sent := chan + message[sent..sent + k], sent + k;
        step := Send(k);
      }
      Took(step);
    }

    /** recv() copies k bytes from the channel into the buffer. */
    method Take(k: nat)
      requires k <= |chan| && written + k <= buf.Length
      modifies this`chan, this`written, buf
      ensures buf[..] == Splice(old(buf[..]), old(written), old(chan)[..k])
      ensures chan == old(chan)[k..] && written == old(written) + k
    {
      forall i | 0 <= i < k {
        buf[written + i] := chan[i];
      }
      chan, written := chan[k..], written + k;
    }

    /** The receiver's next call: another recv(), which ends the loop when it returns 0; or close(). */
    method ReceiverMove()
      requires Valid() && ReceiverCanMove()
      modifies this`chan, this`written, this`receiver, this`trace, buf
      ensures Valid() && trace == old(trace) + [Abs()]
      ensures Remaining(c, Abs()) < Remaining(c, old(Abs()))
    {
      Invariant();
      ghost var step := ReceiverCloses;
      if receiver == Received {
        receiver := Gone;
      } else if written == buf.Length || chan == [] {
        receiver := Received;
        step := RecvZero;
      } else {
        var k: nat :| 1 <= k <= |chan| && written + k <= buf.Length;
        Take(k);
        step := Recv(k);
      }
      Took(step);
    }

    lemma RestsWhenNeitherMoves()
      requires Valid() && !SenderCanMove() && !ReceiverCanMove()
      ensures AtRest(c, Abs())
    {
      Invariant();
    }

    /** Sender and receiver in whatever order the scheduler picks, up to the end. The receiver's buffer then holds the
        message, cut to its length, and its zeros; the sender has returned 0 if the message fits that buffer,
        and cannot have if the message is longer than buffer and channel together. */
    method RunToEnd()
      requires Valid()
      modifies this, buf
      ensures Valid() && receiver == Gone && message[..] == old(message[..])
      ensures message.Length <= buf.Length ==> sender == Sent && buf[..message.Length] == message[..]
      ensures message.Length >= buf.Length ==> buf[..] == message[..buf.Length]
      ensures forall i :: message.Length <= i < buf.Length ==> buf[i] == NUL
      ensures sender == Sent || (sender == Broken && sent < message.Length)
      ensures message.Length > buf.Length + cap ==> sender == Broken
    {
      Invariant();
      while SenderCanMove() || ReceiverCanMove()
        invariant Valid() && message[..] == old(message[..])
        decreases Remaining(c, Abs())
      {
        Invariant();
        var first: bool := *;
        if SenderCanMove() && (first || !ReceiverCanMove()) {
          SenderMove();
        } else {
          ReceiverMove();
        }
        Invariant();
      }
      Invariant();
      RestsWhenNeitherMoves();
      TransferRoundTrip(c, trace);
    }
  }
}
