/** The request loop of the hello-world server: it reads a connection one byte at a time into a global
    buffer that is never cleared, and answers when the buffer's C string is "print". */
module RequestReader {
  import opened Bytes

  const PRINT: seq<byte> := [112, 114, 105, 110, 116]  // "print"

  /** The bytes of a request without its carriage returns. */
  function Filtered(request: seq<byte>): (r: seq<byte>)
    ensures |r| <= |request| && CR !in r
  {
    if request == [] then []
    else if request[0] == CR then Filtered(request[1..])
    else [request[0]] + Filtered(request[1..])
  }

  lemma {:induction false} FilteredSnoc(request: seq<byte>, b: byte)
    ensures Filtered(request + [b]) == Filtered(request) + if b == CR then [] else [b]
  {
    if request == [] {
      assert request + [b] == [b];
    } else {
      assert (request + [b])[1..] == request[1..] + [b];
      FilteredSnoc(request[1..], b);
    }
  }

  predicate Terminator(b: byte) { b == LF || b == NUL }

  /** What of the connection's bytes comes before the first terminator. */
  function Request(input: seq<byte>): (r: seq<byte>)
    ensures r <= input && NUL !in r && LF !in r
    ensures |r| < |input| ==> Terminator(input[|r|])
  {
    if input == [] || Terminator(input[0]) then [] else [input[0]] + Request(input[1..])
  }

  predicate AfterCr(read: seq<byte>) { read != [] && read[|read| - 1] == CR }

  /** The byte after `read` is stored at index |Filtered(read)|: every store of the loop is inside a buffer
      of this size. */
  ghost predicate StoresInside(size: nat, input: seq<byte>)
  {
    forall i :: 0 <= i <= |Request(input)| && i < |input| ==> |Filtered(input[..i])| < size
  }

  /** The filtered request leaves room for one more byte, or none comes: it fills the buffer, and the connection ends
      there. */
  predicate Room(size: nat, input: seq<byte>)
  {
    var request := Request(input);
    || |Filtered(request)| < size
    || (|Filtered(request)| == size && request == input && !AfterCr(input))
  }

  /** The buffer once `line` is stored; `cr` says that a carriage return was read on top of it. */
  function Cursor(before: seq<byte>, line: seq<byte>, cr: bool): seq<byte>
    requires |line| + (if cr then 1 else 0) <= |before|
  {
    if cr then line + [CR] + before[|line| + 1..] else line + before[|line|..]
  }

  /** What one connection leaves in the buffer: the filtered request, then the last byte read if that did not
      move the cursor on, then whatever was there before. */
  function Fill(before: seq<byte>, input: seq<byte>): (after: seq<byte>)
    requires Room(|before|, input)
    ensures |after| == |before|
  {
    var request := Request(input);
    var line := Filtered(request);
    if |request| < |input| then line + [input[|request|]] + before[|line| + 1..]
    else Cursor(before, line, AfterCr(request))
  }

  lemma Overwrite(before: seq<byte>, line: seq<byte>, cr: bool, b: byte)
    requires |line| < |before|
    ensures Cursor(before, line, cr)[|line| := b] == line + [b] + before[|line| + 1..]
    ensures Cursor(before, line, cr)[|line| := b] == Cursor(before, line + [b], false)
  {
  }

  lemma {:induction false} FilteredPrefix(a: seq<byte>, b: seq<byte>)
    requires a <= b
    ensures Filtered(a) <= Filtered(b)
  {
    if a == [] {
    } else {
      FilteredPrefix(a[1..], b[1..]);
    }
  }

  lemma {:induction false} FilteredKeepsOut(request: seq<byte>, b: byte)
    requires b !in request
    ensures b !in Filtered(request)
  {
    if request == [] {
    } else {
      FilteredKeepsOut(request[1..], b);
    }
  }

  /** `read` came in from the front of the connection and did not end the request. */
  ghost predicate Unended(input: seq<byte>, read: seq<byte>)
  {
    read <= input && NUL !in read && LF !in read
  }

  lemma {:induction false} RequestStartsWith(input: seq<byte>, read: seq<byte>)
    requires Unended(input, read)
    ensures read <= Request(input)
    ensures |read| == |input| || Terminator(input[|read|]) ==> Request(input) == read
  {
    if read == [] {
    } else {
      RequestStartsWith(input[1..], read[1..]);
      assert read == [input[0]] + read[1..];
    }
  }

  lemma RoomFollows(size: nat, input: seq<byte>)
    requires StoresInside(size, input)
    ensures Room(size, input)
  {
    var request := Request(input);
    if |request| < |input| {
      assert input[..|request|] == request;
    } else if input != [] {
      var most := input[..|input| - 1];
      assert most + [input[|input| - 1]] == input == request;
      FilteredSnoc(most, input[|input| - 1]);
    }
  }

  lemma RoomSuffices(size: nat, input: seq<byte>, i: nat)
    requires Room(size, input) && i <= |Request(input)| && i < |input|
    ensures |Filtered(input[..i])| < size
  {
    FilteredPrefix(input[..i], Request(input));
    if Request(input) == input {
      var most := input[..|input| - 1];
      assert most + [input[|input| - 1]] == input;
      FilteredSnoc(most, input[|input| - 1]);
      FilteredPrefix(input[..i], most);
    }
  }

  /** No store of the loop falls outside the buffer exactly when there is room for the request. */
  lemma StoresInsideIff(size: nat, input: seq<byte>)
    ensures StoresInside(size, input) <==> Room(size, input)
  {
    if StoresInside(size, input) {
      RoomFollows(size, input);
    }
    if Room(size, input) {
      forall i | 0 <= i <= |Request(input)| && i < |input| ensures |Filtered(input[..i])| < size {
        RoomSuffices(size, input, i);
      }
    }
  }

  lemma {:induction false} OrdinaryBytes(input: seq<byte>)
    requires CR !in input && LF !in input && NUL !in input
    ensures Request(input) == Filtered(input) == input
  {
    if input == [] {
    } else {
      OrdinaryBytes(input[1..]);
      assert input == [input[0]] + input[1..];
    }
  }

  /** More ordinary bytes than the buffer has cells: the first of them too many is stored just behind it. */
  lemma OverflowingRequest(size: nat, input: seq<byte>)
    requires |input| > size && CR !in input && LF !in input && NUL !in input
    ensures size <= |Request(input)| && |Filtered(input[..size])| == size && !StoresInside(size, input)
  {
    OrdinaryBytes(input);
    OrdinaryBytes(input[..size]);
  }

  lemma OneMore(before: seq<byte>, read: seq<byte>, cr: bool, b: byte)
    requires |Filtered(read)| < |before|
    ensures |Cursor(before, Filtered(read), cr)| == |before|
    ensures |Filtered(read + [b])| == |Filtered(read)| + if b == CR then 0 else 1
    ensures Cursor(before, Filtered(read), cr)[|Filtered(read)| := b] == Cursor(before, Filtered(read + [b]), b == CR)
  {
    FilteredSnoc(read, b);
    Overwrite(before, Filtered(read), cr, b);
  }

  /** The next byte has a cell in the buffer. */
  lemma CursorFits(size: nat, input: seq<byte>, read: seq<byte>)
    requires Room(size, input) && Unended(input, read) && |read| < |input|
    ensures |Filtered(read)| < size
  {
    StoresInsideIff(size, input);
    RequestStartsWith(input, read);
    assert input[..|read|] == read;
  }

  /** What is in the buffer, and where the cursor is, after the bytes `read`. */
  ghost predicate Reading(before: seq<byte>, read: seq<byte>, buf: seq<byte>, temp: nat)
  {
    && temp == |Filtered(read)| && temp + (if AfterCr(read) then 1 else 0) <= |before|
    && buf == Cursor(before, Filtered(read), AfterCr(read))
  }

  /** Another byte is read and does not end the request. */
  lemma ReadOn(before: seq<byte>, input: seq<byte>, read: seq<byte>, buf: seq<byte>, temp: nat, b: byte)
    requires Room(|before|, input)
    requires Reading(before, read, buf, temp) && Unended(input, read + [b])
    ensures temp < |buf| && Reading(before, read + [b], buf[temp := b], if b == CR then temp else temp + 1)
  {
    CursorFits(|before|, input, read);
    OneMore(before, read, AfterCr(read), b);
  }

  /** Another byte is read and ends the request. */
  lemma ReadLast(before: seq<byte>, input: seq<byte>, read: seq<byte>, buf: seq<byte>, temp: nat, b: byte)
    requires Room(|before|, input)
    requires Reading(before, read, buf, temp) && Unended(input, read)
    requires |read| < |input| && b == input[|read|] && Terminator(b)
    ensures temp < |buf| && buf[temp := b] == Fill(before, input)
  {
    RequestStartsWith(input, read);
    Overwrite(before, Filtered(read), AfterCr(read), b);
  }

  /** The connection ends before the request does. */
  lemma ReadAll(before: seq<byte>, input: seq<byte>, buf: seq<byte>, temp: nat)
    requires Room(|before|, input)
    requires Reading(before, input, buf, temp) && Unended(input, input)
    ensures buf == Fill(before, input)
  {
    RequestStartsWith(input, input);
  }

  lemma {:induction false} CStrOfConcat(a: seq<byte>, b: seq<byte>)
    requires NUL !in a
    ensures CStr(a + b) == a + CStr(b)
  {
    if a == [] {
      assert a + b == b;
    } else {
      assert (a + b)[1..] == a[1..] + b;
      CStrOfConcat(a[1..], b);
    }
  }

  lemma SpoiltBy(line: seq<byte>, rest: seq<byte>)
    ensures rest == [] || rest[0] == NUL ==> line + CStr(rest) == line
    ensures rest != [] && (rest[0] == LF || rest[0] == CR) ==> line + CStr(rest) != PRINT
  {
    if rest != [] && (rest[0] == LF || rest[0] == CR) {
      assert (line + CStr(rest))[|line|] == rest[0];
      assert LF !in PRINT && CR !in PRINT;
    }
  }

  /** How a connection ended: by NUL, by a newline, or by end of stream with or without a carriage return last. */
  datatype Ending = ByNul | ByNewline | ByCr | Plain

  function EndingOf(input: seq<byte>): Ending
  {
    var request := Request(input);
    if |request| < |input| then (if input[|request|] == NUL then ByNul else ByNewline)
    else if AfterCr(request) then ByCr
    else Plain
  }

  lemma FillShape(before: seq<byte>, input: seq<byte>)
    requires Room(|before|, input)
    ensures var (line, after) := (Filtered(Request(input)), Fill(before, input));
            && after == line + after[|line|..]
            && match EndingOf(input)
               case ByNul => after[|line|] == NUL
               case ByNewline => after[|line|] == LF
               case ByCr => after[|line|] == CR
               case Plain => after[|line|..] == before[|line|..]
  {
  }

  /** What the server's C string, and so its answer, means, whatever earlier connections left in the buffer.
      A request ended by NUL is judged on its own filtered bytes. One ended by a newline is never answered, for the
      newline stays in the string. One cut off by end of stream runs on into what was in the buffer before,
      unless a carriage return was its last byte, which then stays and spoils it. */
  lemma ReplyMeaning(before: seq<byte>, input: seq<byte>)
    requires Room(|before|, input)
    ensures var (line, after) := (Filtered(Request(input)), Fill(before, input));
            match EndingOf(input)
            case ByNul => CStr(after) == line
            case ByNewline => CStr(after) != PRINT
            case ByCr => CStr(after) != PRINT
            case Plain => CStr(after) == line + CStr(before[|line|..])
  {
    FillShape(before, input);
    var line, after := Filtered(Request(input)), Fill(before, input);
    var rest := after[|line|..];
    FilteredKeepsOut(Request(input), NUL);
    CStrOfConcat(line, rest);
    SpoiltBy(line, rest);
  }

  /** The one request that is answered: "print" and a NUL, with carriage returns anywhere in between. */
  lemma PrintIsAnswered(before: seq<byte>, input: seq<byte>)
    requires Room(|before|, input) && EndingOf(input) == ByNul
    ensures CStr(Fill(before, input)) == PRINT <==> Filtered(Request(input)) == Ascii("print")
  {
    assert Ascii("print") == PRINT;
    ReplyMeaning(before, input);
  }

  /** When the answer is the one the filtered request deserves by itself, whatever else is in the buffer. */
  lemma OwnReplyIff(before: seq<byte>, input: seq<byte>)
    requires Room(|before|, input)
    ensures var line := Filtered(Request(input));
            (CStr(Fill(before, input)) == PRINT <==> line == PRINT) <==>
              match EndingOf(input)
              case ByNul => true
              case Plain =>
                if line == PRINT then |line| == |before| || before[|line|] == NUL
                else line + CStr(before[|line|..]) != PRINT
              case _ => line != PRINT
  {
    ReplyMeaning(before, input);
    var line := Filtered(Request(input));
    var rest := before[|line|..];
    assert line + CStr(rest) == line <==> CStr(rest) == [];
  }

  /** The buffer still holds a NUL, so that its C string ends inside it, exactly when one ended the request
      or one is left among the old bytes that were not overwritten. */
  lemma NulRemainsIff(before: seq<byte>, input: seq<byte>)
    requires Room(|before|, input)
    ensures var line := |Filtered(Request(input))|;
            NUL in Fill(before, input) <==>
              match EndingOf(input)
              case ByNul => true
              case ByNewline => NUL in before[line + 1..]
              case ByCr => NUL in before[line + 1..]
              case Plain => NUL in before[line..]
  {
    var line, after := Filtered(Request(input)), Fill(before, input);
    FilteredKeepsOut(Request(input), NUL);
    if EndingOf(input) == Plain {
      assert after == line + before[|line|..];
    } else {
      assert exists b :: after == line + [b] + before[|line| + 1..] && (b == NUL <==> EndingOf(input) == ByNul);
    }
  }

  /** A request that leaves the last cell alone. */
  predicate SparesLastCell(size: nat, input: seq<byte>)
  {
    |Filtered(Request(input))| + 1 < size
  }

  lemma LastCellStays(before: seq<byte>, input: seq<byte>)
    requires SparesLastCell(|before|, input)
    ensures Fill(before, input)[|before| - 1] == before[|before| - 1]
  {
  }

  /** strcmp with a word is decided by as many bytes as the word and its NUL have, even in a buffer without a NUL. */
  lemma ComparisonStaysInside(buf: seq<byte>, word: seq<byte>)
    requires NUL !in word && |word| < |buf|
    ensures CStr(buf) == word <==> buf[..|word| + 1] == word + [NUL]
  {
    if buf[..|word| + 1] == word + [NUL] {
      assert buf[..|word|] == buf[..|word| + 1][..|word|];
      assert buf[|word|] == buf[..|word| + 1][|word|];
      CStrUnique(buf, word);
    }
    if CStr(buf) == word {
      assert buf[..|word| + 1] == buf[..|word|] + [buf[|word|]];
    }
  }

  /** What a reply says about its request alone, whatever was in the buffer before. */
  ghost predicate Judged(input: seq<byte>, reply: bool)
  {
    match EndingOf(input)
    case ByNul => reply <==> Filtered(Request(input)) == PRINT
    case ByNewline => !reply
    case ByCr => !reply
    case Plain => reply ==> Filtered(Request(input)) <= PRINT
  }

  /** The reply decided by the buffer that a connection leaves. */
  lemma ReplyIsJudged(before: seq<byte>, input: seq<byte>)
    requires Room(|before|, input)
    ensures Judged(input, CStr(Fill(before, input)) == PRINT)
  {
    ReplyMeaning(before, input);
  }

  ghost predicate AllFit(size: nat, inputs: seq<seq<byte>>)
  {
    forall i :: 0 <= i < |inputs| ==> Room(size, inputs[i])
  }

  /** What a number of connections, one after the other, leave in the buffer. */
  ghost function FillAll(before: seq<byte>, inputs: seq<seq<byte>>): (after: seq<byte>)
    requires AllFit(|before|, inputs)
    ensures |after| == |before|
  {
    if inputs == [] then before
    else
      var most := inputs[..|inputs| - 1];
      assert forall i :: 0 <= i < |most| ==> most[i] == inputs[i];
      Fill(FillAll(before, most), inputs[|inputs| - 1])
  }

  lemma FillAllSnoc(before: seq<byte>, inputs: seq<seq<byte>>, i: nat)
    requires AllFit(|before|, inputs) && i < |inputs|
    ensures FillAll(before, inputs[..i + 1]) == Fill(FillAll(before, inputs[..i]), inputs[i])
  {
    assert inputs[..i + 1][..i] == inputs[..i];
  }

  /** If no request reaches the last cell, the NUL in it is still there after any number of connections. */
  lemma {:induction false} TerminatorSurvives(before: seq<byte>, inputs: seq<seq<byte>>)
    requires AllFit(|before|, inputs) && before != [] && before[|before| - 1] == NUL
    requires forall i :: 0 <= i < |inputs| ==> SparesLastCell(|before|, inputs[i])
    ensures NUL in FillAll(before, inputs) && FillAll(before, inputs)[|before| - 1] == NUL
  {
    if inputs == [] {
    } else {
      var most := inputs[..|inputs| - 1];
      TerminatorSurvives(before, most);
      LastCellStays(FillAll(before, most), inputs[|inputs| - 1]);
    }
  }

  /** Each reply is the one its own request deserves. */
  ghost predicate AllJudged(inputs: seq<seq<byte>>, replies: seq<bool>)
  {
    |replies| <= |inputs| && forall i :: 0 <= i < |replies| ==> Judged(inputs[i], replies[i])
  }

  lemma OneMoreJudged(inputs: seq<seq<byte>>, replies: seq<bool>, reply: bool)
    requires AllJudged(inputs, replies) && |replies| < |inputs| && Judged(inputs[|replies|], reply)
    ensures AllJudged(inputs, replies + [reply])
  {
  }

  class Server {
    const rBuffer: array<byte>

    /** BUFSIZ is at least 256 in standard C; here it need only hold "print". */
    ghost predicate Valid() { |PRINT| < rBuffer.Length }

    constructor (bufSize: nat)
      requires |PRINT| < bufSize
      ensures Valid()
      ensures rBuffer.Length == bufSize && fresh(rBuffer) && forall i :: 0 <= i < bufSize ==> rBuffer[i] == NUL
    {
      rBuffer := new byte[bufSize](_ => NUL);
    }

    /** The read loop for a connection that delivers `input` and then ends. */
    method ReadRequest(input: seq<byte>)
      requires Room(rBuffer.Length, input)
      modifies rBuffer
      ensures rBuffer[..] == Fill(old(rBuffer[..]), input)
    {
      ghost var before, ended := rBuffer[..], false;
      var temp, length := 0, 0;
      var i := 0;
      while i < |input|
        invariant i <= |input| && temp == length && !ended
        invariant Unended(input, input[..i]) && Reading(before, input[..i], rBuffer[..], temp)
      {
        var b := input[i];
        ghost var read, buf := input[..i], rBuffer[..];
        i := i + 1;
        assert input[..i] == read + [b];
        ended := Terminator(b);
        if ended {
          ReadLast(before, input, read, buf, temp, b);
        } else {
          ReadOn(before, input, read, buf, temp, b);
        }
        rBuffer[temp] := b;
        assert rBuffer[..] == buf[temp := b];
        if rBuffer[temp] == CR {
          continue;
        }
        if rBuffer[temp] == LF {
          break;
        }
        if rBuffer[temp] == NUL {
          break;
        }
        if length == rBuffer.Length {
          break;
        }
        temp := temp + 1;
        length := length + 1;
      }
      if !ended {
        assert input[..i] == input;
        ReadAll(before, input, rBuffer[..], temp);
      }
    }

    /** One connection: the read loop, and the decision to reply. */
    method Handle(input: seq<byte>) returns (reply: bool)
      requires Valid() && Room(rBuffer.Length, input)
      modifies rBuffer
      ensures rBuffer[..] == Fill(old(rBuffer[..]), input)
      ensures reply <==> CStr(rBuffer[..]) == PRINT
      ensures Judged(input, reply)
    {
      ReplyIsJudged(rBuffer[..], input);
      ReadRequest(input);
      ComparisonStaysInside(rBuffer[..], PRINT);
      reply := rBuffer[..|PRINT| + 1] == PRINT + [NUL];
    }

    /** One connection after the other over the same buffer: each one ended by NUL is answered exactly when its own
        filtered bytes are "print", and none ended by a newline or with a carriage return last is answered. */
    method Serve(inputs: seq<seq<byte>>) returns (replies: seq<bool>)
      requires Valid() && AllFit(rBuffer.Length, inputs)
      modifies rBuffer
      ensures |replies| == |inputs| && AllJudged(inputs, replies)
      ensures rBuffer[..] == FillAll(old(rBuffer[..]), inputs)
    {
      replies := [];
      for i := 0 to |inputs|
        invariant |replies| == i && AllJudged(inputs, replies)
        invariant rBuffer[..] == FillAll(old(rBuffer[..]), inputs[..i])
      {
        FillAllSnoc(old(rBuffer[..]), inputs, i);
        var reply := Handle(inputs[i]);
        OneMoreJudged(inputs, replies, reply);
        replies := replies + [reply];
      }
      assert inputs[..|inputs|] == inputs;
    }
  }
}
