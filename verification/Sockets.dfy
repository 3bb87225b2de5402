/** A stream socket as its owner sees it, and the loops that move whole buffers over it. */
module Sockets {
  import opened Bytes

  const INT_MAX := 0x7fff_ffff

  /** One recv() or send(): where in the buffer it was aimed, how much it asked for, what it returned. */
  datatype Call = Call(off: nat, len: nat, ret: int)

  class Socket {
    var incoming: seq<byte>       // what the peer sends from here on, up to its end of stream
    var outgoing: seq<byte>       // what has been accepted for the peer
    const faulty: bool            // whether calls may fail
    ghost var calls: seq<Call>    // the recv() calls made
    ghost var sends: seq<Call>    // the send() calls made

    constructor (incoming: seq<byte>, faulty: bool)
      ensures this.incoming == incoming && outgoing == [] && this.faulty == faulty && calls == sends == []
    {
      this.incoming, outgoing, this.faulty, calls, sends := incoming, [], faulty, [], [];
    }

    /** Delivers some of what is coming; 0 only at end of stream or for a zero-length request. */
    method Recv(buf: array<byte>, off: nat, len: nat) returns (ret: int)
      requires off + len <= buf.Length
      modifies this`incoming, this`calls, buf
      ensures calls == old(calls) + [Call(off, len, ret)]
      ensures ret == -1 || (0 <= ret <= len && ret <= |old(incoming)|)
      ensures ret == -1 ==> faulty && incoming == old(incoming) && buf[..] == old(buf[..])
      ensures ret == 0 <==> ret != -1 && (len == 0 || old(incoming) == [])
      ensures ret >= 0 ==> incoming == old(incoming)[ret..]
      ensures ret >= 0 ==> buf[..] == Splice(old(buf[..]), off, old(incoming)[..ret])
    {
      var fails: bool := *;
      if faulty && fails {
        ret := -1;
      } else {
        ret := 0;
        if len > 0 && incoming != [] {
          ret :| 1 <= ret <= len && ret <= |incoming|;
        }
        forall i | 0 <= i < ret {
          buf[off + i] := incoming[i];
        }
        incoming := incoming[ret..];
      }
      calls := calls + [Call(off, len, ret)];
    }

    /** Accepts at least one byte of a non-empty request. */
    method Send(buf: array<byte>, off: nat, len: nat) returns (ret: int)
      requires off + len <= buf.Length && len > 0
      modifies this`outgoing, this`sends
      ensures sends == old(sends) + [Call(off, len, ret)]
      ensures ret == -1 || 1 <= ret <= len
      ensures ret == -1 ==> faulty && outgoing == old(outgoing)
      ensures ret != -1 ==> outgoing == old(outgoing) + buf[off..off + ret]
    {
      var fails: bool := *;
      if faulty && fails {
        ret := -1;
      } else {
        ret :| 1 <= ret <= len;
        outgoing := outgoing + buf[off..off + ret];
      }
      sends := sends + [Call(off, len, ret)];
    }

    /** A blocking write(): the whole request, in as many pieces as the channel takes. */
    method Write(buf: array<byte>, len: nat)
      requires len <= buf.Length && !faulty
      modifies this`outgoing, this`sends
      ensures outgoing == old(outgoing) + buf[..len]
    {
      var written := 0;
      while written < len
        invariant 0 <= written <= len && outgoing == old(outgoing) + buf[..written]
      {
        var k := Send(buf, written, len - written);
        assert buf[..written] + buf[written..written + k] == buf[..written + k];
        written := written + k;
      }
    }
  }

  /** The calls of one partial transfer: each asks for exactly what is left after what the earlier ones moved,
      and none follows a call that failed or moved nothing. */
  ghost predicate AskForTheRest(calls: seq<Call>, size: nat)
  {
    && (forall i :: 0 <= i < |calls| - 1 ==> calls[i].ret > 0)
    && (forall i :: 0 <= i < |calls| ==> calls[i].off + calls[i].len == size)
    && (forall i :: 0 < i < |calls| ==> calls[i].off == calls[i - 1].off + calls[i - 1].ret)
    && (|calls| > 0 ==> calls[0].off == 0)
  }

  /** `k` bytes have moved from the front of the stream to the front of the buffer, and nothing else changed. */
  ghost predicate Moved(stream: seq<byte>, stream': seq<byte>, buf: seq<byte>, buf': seq<byte>, k: int)
  {
    0 <= k <= |stream| && k <= |buf| && stream' == stream[k..] && buf' == Splice(buf, 0, stream[..k])
  }

  lemma NothingMoved(stream: seq<byte>, buf: seq<byte>, size: nat)
    ensures Moved(stream, stream, buf, buf, 0) && Asked([], size, 0, 1)
  {
  }

  lemma MovedMore(stream: seq<byte>, stream': seq<byte>, buf: seq<byte>, buf': seq<byte>, k: nat, more: nat)
    requires Moved(stream, stream', buf, buf', k) && more <= |stream'| && k + more <= |buf|
    ensures Moved(stream, stream'[more..], buf, Splice(buf', k, stream'[..more]), k + more)
  {
    assert stream[..k] + stream[k..][..more] == stream[..k + more];
    assert Splice(buf', k, stream'[..more]) == Splice(buf, 0, stream[..k + more]);
  }

  lemma AskForMore(calls: seq<Call>, size: nat, call: Call)
    requires AskForTheRest(calls, size) && call.off + call.len == size
    requires calls != [] ==> calls[|calls| - 1].ret > 0
    requires call.off == if calls == [] then 0 else calls[|calls| - 1].off + calls[|calls| - 1].ret
    ensures AskForTheRest(calls + [call], size)
  {
  }

  /** Calls that ask for the rest and, but for the last one when it fails, have brought `written` bytes. */
  ghost predicate Asked(asked: seq<Call>, size: nat, written: int, ret: int)
  {
    && AskForTheRest(asked, size)
    && (asked == [] ==> written == 0 && ret == 1)
    && (asked != [] ==> var last := asked[|asked| - 1]; last.ret == ret && last.off + last.ret == written)
  }

  lemma AskedMore(asked: seq<Call>, size: nat, written: nat, ret: int, ret': int)
    requires Asked(asked, size, written, ret) && written <= size && ret > 0
    ensures var more := asked + [Call(written, size - written, ret')];
            AskForTheRest(more, size) && Asked(more, size, written + ret', ret')
  {
    AskForMore(asked, size, Call(written, size - written, ret'));
  }

  /** One recv() of the loop, for the space that is left. */
  method RecvMore(sock: Socket, buf: array<byte>, size: nat, written: nat, ghost asked: seq<Call>, ghost last: int,
                  ghost stream: seq<byte>, ghost start: seq<byte>) returns (ret: int, ghost more: seq<Call>)
    requires written <= size <= buf.Length && Moved(stream, sock.incoming, start, buf[..], written)
    requires Asked(asked, size, written, last) && last > 0
    modifies sock`incoming, sock`calls, buf
    ensures more == asked + [Call(written, size - written, ret)] && Asked(more, size, written + ret, ret)
    ensures sock.calls == old(sock.calls) + [Call(written, size - written, ret)]
    ensures ret == -1 || 0 <= ret <= size - written
    ensures ret == -1 ==> sock.faulty
    ensures ret == 0 ==> written == size || sock.incoming == []
    ensures Moved(stream, sock.incoming, start, buf[..], if ret == -1 then written else written + ret)
  {
    ghost var incoming, before := sock.incoming, buf[..];
    ret := sock.Recv(buf, written, size - written);
    more := asked + [Call(written, size - written, ret)];
    AskedMore(asked, size, written, last, ret);
    if ret == -1 {
      assert buf[..] == before;
    } else {
      MovedMore(stream, incoming, start, before, written, ret);
    }
  }

  /** The loop: up to a failure, or to a 0, which is end of stream or the zero-length request when buf is full. */
  method RecvAll(sock: Socket, buf: array<byte>, size: nat) returns (status: int, written: nat, ghost asked: seq<Call>)
    requires size <= buf.Length
    modifies sock`incoming, sock`calls, buf
    ensures status == 0 || (status == -1 && sock.faulty)
    ensures written <= size && Moved(old(sock.incoming), sock.incoming, old(buf[..]), buf[..], written)
    ensures status == 0 ==> written == size || sock.incoming == []
    ensures sock.calls == old(sock.calls) + asked && asked != [] && Asked(asked, size, written + status, status)
  {
    NothingMoved(sock.incoming, buf[..], size);
    asked, written := [], 0;
    var ret := 1;
    while ret != 0
      invariant 0 <= ret && written <= size
      invariant Moved(old(sock.incoming), sock.incoming, old(buf[..]), buf[..], written)
      invariant ret == 0 ==> asked != [] && (written == size || sock.incoming == [])
      invariant sock.calls == old(sock.calls) + asked && Asked(asked, size, written, ret)
      decreases size - written, if ret == 0 then 0 else 1
    {
      ret, asked := RecvMore(sock, buf, size, written, asked, ret, old(sock.incoming), old(buf[..]));
      if ret == -1 {
        return -1, written, asked;
      }
      written := written + ret;
    }
    return 0, written, asked;
  }

  lemma AllMoved(stream: seq<byte>, stream': seq<byte>, buf: seq<byte>, buf': seq<byte>, size: nat, written: nat)
    requires Moved(stream, stream', buf, buf', written) && written <= size
    requires written == size || stream' == []
    ensures written == Min(size, |stream|)
  {
  }

  /** partial_message_recv: fills buf with the first min(size, stream length) bytes of the stream and
      touches nothing else; every request is for the space that is left. It returns what the last one returned,
      0 or -1; on -1 it has moved what the earlier ones brought. */
  method PartialMessageRecv(sock: Socket, buf: array<byte>, size: nat) returns (status: int, ghost asked: seq<Call>)
    requires size <= buf.Length && size <= INT_MAX
    modifies sock`incoming, sock`calls, buf
    ensures status == 0 || (status == -1 && sock.faulty)
    ensures status == 0 ==>
      Moved(old(sock.incoming), sock.incoming, old(buf[..]), buf[..], Min(size, |old(sock.incoming)|))
    ensures status == -1 ==>
      asked != [] && Moved(old(sock.incoming), sock.incoming, old(buf[..]), buf[..], asked[|asked| - 1].off)
    ensures sock.calls == old(sock.calls) + asked && AskForTheRest(asked, size)
    ensures asked != [] && asked[|asked| - 1].ret == status
  {
    var written: nat;
    status, written, asked := RecvAll(sock, buf, size);
    if status == 0 {
      AllMoved(old(sock.incoming), sock.incoming, old(buf[..]), buf[..], size, written);
    }
  }

  /** The calls of the sending loop so far, and how much they have sent. */
  ghost predicate Offered(asked: seq<Call>, size: nat, written: int)
  {
    && AskForTheRest(asked, size)
    && (asked == [] ==> written == 0)
    && (asked != [] ==> var last := asked[|asked| - 1]; last.ret > 0 && last.off + last.ret == written)
  }

  /** partial_message_send: each send() is for exactly what is left. It returns 0 when all of the first size bytes
      have been accepted, once each and in order; and -1 exactly when a send() does, with what the earlier ones
      accepted. */
  method PartialMessageSend(sock: Socket, buf: array<byte>, size: nat) returns (status: int, ghost asked: seq<Call>)
    requires size <= buf.Length && size <= INT_MAX
    modifies sock`outgoing, sock`sends
    ensures status == 0 || (status == -1 && sock.faulty)
    ensures sock.sends == old(sock.sends) + asked && AskForTheRest(asked, size)
    ensures status == -1 <==> asked != [] && asked[|asked| - 1].ret == -1
    ensures status == 0 ==> sock.outgoing == old(sock.outgoing) + buf[..size]
    ensures status == -1 ==> asked[|asked| - 1].off < size
                             && sock.outgoing == old(sock.outgoing) + buf[..asked[|asked| - 1].off]
  {
    asked := [];
    var written := 0;
    while written < size
      invariant 0 <= written <= size && sock.outgoing == old(sock.outgoing) + buf[..written]
      invariant sock.sends == old(sock.sends) + asked && Offered(asked, size, written)
    {
      var ret := sock.Send(buf, written, size - written);
      AskForMore(asked, size, Call(written, size - written, ret));
      asked := asked + [Call(written, size - written, ret)];
      if ret == -1 {
        return -1, asked;
      }
      assert buf[..written] + buf[written..written + ret] == buf[..written + ret];
      written := written + ret;
    }
    return 0, asked;
  }

  /** Of the whole input, the first `sent` bytes have been written back, `chunk` has been read, `rest` is to come. */
  ghost predicate Echoing(start: seq<byte>, out: seq<byte>, whole: seq<byte>, sent: nat,
                          chunk: seq<byte>, rest: seq<byte>)
  {
    sent <= |whole| && out == start + whole[..sent] && chunk + rest == whole[sent..]
  }

  lemma ChunkWritten(start: seq<byte>, out: seq<byte>, whole: seq<byte>, sent: nat, chunk: seq<byte>, rest: seq<byte>)
    requires Echoing(start, out, whole, sent, chunk, rest)
    ensures Echoing(start, out + chunk, whole, sent + |chunk|, [], rest)
  {
    assert whole[sent..][..|chunk|] == chunk && whole[sent..][|chunk|..] == rest;
    assert whole[..sent] + chunk == whole[..sent + |chunk|];
    assert whole[sent + |chunk|..] == rest;
  }

  lemma ChunkRead(start: seq<byte>, out: seq<byte>, whole: seq<byte>, sent: nat, rest: seq<byte>, n: nat)
    requires Echoing(start, out, whole, sent, [], rest) && n <= |rest|
    ensures Echoing(start, out, whole, sent, rest[..n], rest[n..])
  {
    assert rest[..n] + rest[n..] == rest;
  }

  /** read(sock, rcvBuffer, bufSize) */
  method ReadChunk(sock: Socket, rcvBuffer: array<byte>) returns (n: nat)
    requires !sock.faulty && rcvBuffer.Length >= 1
    modifies sock`incoming, sock`calls, rcvBuffer
    ensures n <= rcvBuffer.Length && n <= |old(sock.incoming)| && (n == 0 <==> old(sock.incoming) == [])
    ensures rcvBuffer[..n] == old(sock.incoming)[..n] && sock.incoming == old(sock.incoming)[n..]
  {
    n := sock.Recv(rcvBuffer, 0, rcvBuffer.Length);
  }

  lemma AllEchoed(start: seq<byte>, out: seq<byte>, whole: seq<byte>, sent: nat)
    requires Echoing(start, out, whole, sent, [], [])
    ensures out == start + whole
  {
    assert whole[..sent] == whole;
  }

  /** One pass of the echo loop: write the chunk back, read another. */
  method EchoChunk(sock: Socket, rcvBuffer: array<byte>, n: nat,
                   ghost start: seq<byte>, ghost whole: seq<byte>, ghost sent: nat)
    returns (n': nat)
    requires !sock.faulty && n <= rcvBuffer.Length && rcvBuffer.Length >= 1
    requires Echoing(start, sock.outgoing, whole, sent, rcvBuffer[..n], sock.incoming)
    modifies sock, rcvBuffer
    ensures n' <= rcvBuffer.Length && n' <= |old(sock.incoming)| && (n' == 0 <==> old(sock.incoming) == [])
    ensures sock.incoming == old(sock.incoming)[n'..]
    ensures Echoing(start, sock.outgoing, whole, sent + n, rcvBuffer[..n'], sock.incoming)
  {
    ghost var out, rest := sock.outgoing, sock.incoming;
    sock.Write(rcvBuffer, n);
    ChunkWritten(start, out, whole, sent, rcvBuffer[..n], rest);
    n' := ReadChunk(sock, rcvBuffer);
    ChunkRead(start, sock.outgoing, whole, sent + n, rest, n');
  }

  /** The echo loop from the first chunk on. */
  method EchoOn(sock: Socket, rcvBuffer: array<byte>, first: nat, ghost start: seq<byte>, ghost whole: seq<byte>)
    requires !sock.faulty && first <= rcvBuffer.Length && rcvBuffer.Length >= 1
    requires first == 0 ==> sock.incoming == []
    requires Echoing(start, sock.outgoing, whole, 0, rcvBuffer[..first], sock.incoming)
    modifies sock, rcvBuffer
    ensures sock.outgoing == start + whole && sock.incoming == []
  {
    var n: nat := first;
    ghost var sent: nat := 0;
    while n != 0
      invariant n <= rcvBuffer.Length && (n == 0 ==> sock.incoming == [])
      invariant Echoing(start, sock.outgoing, whole, sent, rcvBuffer[..n], sock.incoming)
      decreases |sock.incoming|, n
    {
      ghost var written := n;
      n := EchoChunk(sock, rcvBuffer, n, start, whole, sent);
      sent := sent + written;
    }
    AllEchoed(start, sock.outgoing, whole, sent);
  }

  /** do_echo, and the inner loop of the iterative server: everything up to end of stream goes back, in order. */
  method DoEcho(sock: Socket, bufSize: nat)
    requires !sock.faulty && bufSize >= 1
    modifies sock
    ensures sock.outgoing == old(sock.outgoing) + old(sock.incoming) && sock.incoming == []
  {
    ghost var start, whole := sock.outgoing, sock.incoming;
    var rcvBuffer := new byte[bufSize];
    var n := ReadChunk(sock, rcvBuffer);
    ChunkRead(start, start, whole, 0, whole, n);
    EchoOn(sock, rcvBuffer, n, start, whole);
  }

  /** The iterative server: connections are served one after the other, each with its own bytes only. */
  method ServeInTurn(conns: seq<Socket>, bufSize: nat)
    requires bufSize >= 1
    requires forall i :: 0 <= i < |conns| ==> !conns[i].faulty
    requires forall i, j :: 0 <= i < j < |conns| ==> conns[i] != conns[j]
    modifies conns
    ensures forall i :: 0 <= i < |conns| ==>
      conns[i].outgoing == old(conns[i].outgoing) + old(conns[i].incoming) && conns[i].incoming == []
  {
    for i := 0 to |conns|
      invariant forall j :: 0 <= j < i ==>
        conns[j].outgoing == old(conns[j].outgoing) + old(conns[j].incoming) && conns[j].incoming == []
      invariant forall j :: i <= j < |conns| ==>
        conns[j].outgoing == old(conns[j].outgoing) && conns[j].incoming == old(conns[j].incoming)
    {
      DoEcho(conns[i], bufSize);
    }
  }
}
