/** The two senders of the shared-memory example as programs of stores: the POSIX one stores the size and the message,
    the System V one clears the whole segment first, on attaching it. */
module Senders {
  import opened Bytes
  import opened OneWriter

  const SIZE_FIELD: seq<byte> := [8, 0, 0, 0]  // sizeof(message), the size of a pointer

  lemma SizeOfAPointer()
    ensures SIZE_FIELD == Word(8)
  {
  }

  /** memset and strcpy, a byte at a time. */
  function Bytewise(at: nat, text: seq<byte>): (prog: seq<Write>)
    ensures Fits(prog, at + |text|)
    decreases |text|
  {
    if text == [] then [] else [Write(at, [text[0]])] + Bytewise(at + 1, text[1..])
  }

  function PosixSend(message: seq<byte>): (prog: seq<Write>)
    ensures Fits(prog, |SIZE_FIELD| + |message| + 1)
  {
    [Write(0, SIZE_FIELD)] + Bytewise(|SIZE_FIELD|, message + [NUL])
  }

  function SysvSend(size: nat, message: seq<byte>): (prog: seq<Write>)
    requires |SIZE_FIELD| + |message| + 1 <= size
    ensures Fits(prog, size)
  {
    Bytewise(0, Zeros(size)) + PosixSend(message)
  }

  /** A message that is a C string and has room in the segment. */
  predicate Sendable(mem: seq<byte>, message: seq<byte>)
  {
    NUL !in message && |SIZE_FIELD| + |message| + 1 <= |mem|
  }

  /** In how many places a text differs from what is there. */
  function Differing(was: seq<byte>, text: seq<byte>): nat
    requires |text| <= |was|
  {
    if text == [] then 0 else (if was[0] == text[0] then 0 else 1) + Differing(was[1..], text[1..])
  }

  function NonZero(bytes: seq<byte>): nat { Differing(Zeros(|bytes|), bytes) }

  // ---- programs one after the other

  /** The program turns `mem` into `mem'`, and `changes` of its stores change anything. */
  ghost predicate Does(mem: seq<byte>, prog: seq<Write>, mem': seq<byte>, changes: nat)
  {
    Fits(prog, |mem|) && Memory(mem, prog) == mem' && Effects(mem, prog) == changes
  }

  lemma {:induction false} OneAfterTheOther(mem: seq<byte>, p: seq<Write>, mid: seq<byte>, m: nat,
                                            q: seq<Write>, mem': seq<byte>, n: nat)
    requires Does(mem, p, mid, m) && Does(mid, q, mem', n)
    ensures Does(mem, p + q, mem', m + n)
    decreases |p|
  {
    if p == [] {
      assert p + q == q;
    } else {
      var first := Splice(mem, p[0].at, p[0].bytes);
      assert (p + q)[1..] == p[1..] + q;
      OneAfterTheOther(first, p[1..], mid, m - (if first == mem then 0 else 1), q, mem', n);
    }
  }

  lemma FirstByte(mem: seq<byte>, at: nat, text: seq<byte>)
    requires text != [] && at + |text| <= |mem|
    ensures var first := Splice(mem, at, [text[0]]);
            && Splice(first, at + 1, text[1..]) == Splice(mem, at, text)
            && first[at + 1..] == mem[at..][1..] && (first == mem <==> mem[at..][0] == text[0])
  {
    var first := Splice(mem, at, [text[0]]);
    assert first[at] == text[0];
    assert mem[at] == text[0] ==> first == mem;
  }

  /** Stored a byte at a time, a text changes each byte that differs, once. */
  lemma {:induction false} BytewiseChanges(mem: seq<byte>, at: nat, text: seq<byte>)
    requires at + |text| <= |mem|
    ensures Does(mem, Bytewise(at, text), Splice(mem, at, text), Differing(mem[at..], text))
    decreases |text|
  {
    if text == [] {
      assert Splice(mem, at, text) == mem;
    } else {
      FirstByte(mem, at, text);
      BytewiseChanges(Splice(mem, at, [text[0]]), at + 1, text[1..]);
    }
  }

  lemma OneStore(mem: seq<byte>, w: Write)
    requires w.at + |w.bytes| <= |mem|
    ensures var mem' := Splice(mem, w.at, w.bytes); Does(mem, [w], mem', if mem' == mem then 0 else 1)
  {
    assert [w][1..] == [];
  }

  // ---- the POSIX sender

  /** The segment once the message is in it. */
  function Posted(mem: seq<byte>, message: seq<byte>): seq<byte>
    requires Sendable(mem, message)
  {
    SIZE_FIELD + (message + [NUL]) + mem[|SIZE_FIELD| + |message| + 1..]
  }

  /** How many of its parts differ from what the POSIX sender stores. */
  function PosixChanges(mem: seq<byte>, message: seq<byte>): nat
    requires Sendable(mem, message)
  {
    (if mem[..|SIZE_FIELD|] == SIZE_FIELD then 0 else 1)
    + Differing(mem[|SIZE_FIELD|..], message + [NUL])
  }

  lemma NewSize(mem: seq<byte>, size: seq<byte>)
    requires |size| <= |mem|
    ensures Splice(mem, 0, size) == size + mem[|size|..]
    ensures size + mem[|size|..] == mem <==> mem[..|size|] == size
  {
    assert mem == mem[..|size|] + mem[|size|..];
    assert (size + mem[|size|..])[..|size|] == size;
  }

  lemma NewText(mem: seq<byte>, size: seq<byte>, text: seq<byte>)
    requires |size| + |text| <= |mem|
    ensures var mid := size + mem[|size|..];
            Splice(mid, |size|, text) == size + text + mem[|size| + |text|..] && mid[|size|..] == mem[|size|..]
  {
  }

  /** It changes the size, if that was another, and the bytes of the message that differ from what was there. */
  lemma PosixSends(mem: seq<byte>, message: seq<byte>)
    requires Sendable(mem, message)
    ensures Does(mem, PosixSend(message), Posted(mem, message), PosixChanges(mem, message))
  {
    var text, f := message + [NUL], |SIZE_FIELD|;
    var mid := SIZE_FIELD + mem[f..];
    NewSize(mem, SIZE_FIELD);
    NewText(mem, SIZE_FIELD, text);
    OneStore(mem, Write(0, SIZE_FIELD));
    BytewiseChanges(mid, f, text);
    OneAfterTheOther(mem, [Write(0, SIZE_FIELD)], mid, if mem[..f] == SIZE_FIELD then 0 else 1,
                     Bytewise(f, text), Posted(mem, message), Differing(mem[f..], text));
  }

  /** When its message is counted at most once whatever the timing, which is known before it is sent. */
  lemma PosixCountedOnceIff(limit: nat, mem: seq<byte>, message: seq<byte>)
    requires Sendable(mem, message)
    ensures CountedOnceAtMost(limit, mem, PosixSend(message)) <==> PosixChanges(mem, message) <= 1 || limit == 1
  {
    PosixSends(mem, message);
    CountedOnceIff(limit, mem, PosixSend(message));
  }

  // ---- the System V sender

  lemma {:induction false} DifferingTurned(a: seq<byte>, b: seq<byte>)
    requires |a| == |b|
    ensures Differing(a, b) == Differing(b, a)
  {
    if a == [] {
    } else {
      DifferingTurned(a[1..], b[1..]);
    }
  }

  lemma {:induction false} AllDiffer(zeros: seq<byte>, message: seq<byte>)
    requires |message| < |zeros| && NUL !in message && forall i :: 0 <= i < |zeros| ==> zeros[i] == NUL
    ensures Differing(zeros, message + [NUL]) == |message|
  {
    var text := message + [NUL];
    if message == [] {
      assert text[1..] == [];
    } else {
      assert message[0] in message;
      assert text[1..] == message[1..] + [NUL];
      AllDiffer(zeros[1..], message[1..]);
    }
  }

  /** memset on the whole segment changes the bytes that are not zero. */
  lemma ClearingChanges(mem: seq<byte>)
    ensures Does(mem, Bytewise(0, Zeros(|mem|)), Zeros(|mem|), NonZero(mem))
  {
    var zeros := Zeros(|mem|);
    BytewiseChanges(mem, 0, zeros);
    assert mem[0..] == mem;
    DifferingTurned(mem, zeros);
    assert Splice(mem, 0, zeros) == zeros;
  }

  lemma PosixChangesCleared(size: nat, message: seq<byte>)
    requires Sendable(Zeros(size), message)
    ensures PosixChanges(Zeros(size), message) == 1 + |message|
  {
    var zeros, f := Zeros(size), |SIZE_FIELD|;
    assert zeros[..f][0] != SIZE_FIELD[0];
    AllDiffer(zeros[f..], message);
  }

  /** It changes every byte that is not zero, then the size, then every byte of the message. */
  lemma SysvSends(mem: seq<byte>, message: seq<byte>)
    requires Sendable(mem, message)
    ensures Does(mem, SysvSend(|mem|, message), Posted(Zeros(|mem|), message), NonZero(mem) + 1 + |message|)
  {
    var zeros := Zeros(|mem|);
    ClearingChanges(mem);
    PosixSends(zeros, message);
    PosixChangesCleared(|mem|, message);
    OneAfterTheOther(mem, Bytewise(0, zeros), zeros, NonZero(mem),
                     PosixSend(message), Posted(zeros, message), 1 + |message|);
  }

  /** So it is counted at most once, whatever the timing, only when an empty message goes into a cleared segment. */
  lemma SysvCountedOnceIff(limit: nat, mem: seq<byte>, message: seq<byte>)
    requires Sendable(mem, message)
    ensures CountedOnceAtMost(limit, mem, SysvSend(|mem|, message)) <==>
              (NonZero(mem) == 0 && message == []) || limit == 1
  {
    SysvSends(mem, message);
    CountedOnceIff(limit, mem, SysvSend(|mem|, message));
  }

  // ---- the same message again

  lemma {:induction false} NoneDiffers(was: seq<byte>, text: seq<byte>)
    requires |text| <= |was| && forall i :: 0 <= i < |text| ==> was[i] == text[i]
    ensures Differing(was, text) == 0
  {
    if text == [] {
    } else {
      NoneDiffers(was[1..], text[1..]);
    }
  }

  lemma PostedIsThere(mem: seq<byte>, message: seq<byte>)
    requires Sendable(mem, message)
    ensures |Posted(mem, message)| == |mem| && PosixChanges(Posted(mem, message), message) == 0
  {
    var text, f, sent := message + [NUL], |SIZE_FIELD|, Posted(mem, message);
    assert sent[..f] == SIZE_FIELD;
    assert forall i :: 0 <= i < |text| ==> sent[f..][i] == text[i];
    NoneDiffers(sent[f..], text);
  }

  lemma PostedIsNotClear(mem: seq<byte>, message: seq<byte>)
    requires Sendable(mem, message)
    ensures NonZero(Posted(mem, message)) >= 1
  {
    var sent := Posted(mem, message);
    var zeros := Zeros(|sent|);
    assert sent[0] == SIZE_FIELD[0] != zeros[0];
  }

  /** A message that is already in the segment is never counted when the POSIX sender sends it again; the System V
      sender's can be counted even more than once, whatever it is, unless the monitor stops at one. */
  lemma ResentMessage(limit: nat, mem: seq<byte>, message: seq<byte>, n: nat)
    requires Sendable(mem, message)
    ensures var sent := Posted(mem, message);
            && Sendable(sent, message)
            && (CanCount(limit, sent, PosixSend(message), n) <==> n == 0)
            && (CountedOnceAtMost(limit, sent, SysvSend(|sent|, message)) <==> limit == 1)
  {
    var sent := Posted(mem, message);
    PostedIsThere(mem, message);
    PosixSends(sent, message);
    CountsPossible(limit, sent, PosixSend(message), n);
    PostedIsNotClear(mem, message);
    SysvCountedOnceIff(limit, sent, message);
  }
}
