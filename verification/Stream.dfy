/** The receive buffer of one connection of server/tcp/tcp_server.c. */
module Stream {
  import opened Protocol
  import opened Framing
  import opened Sequences

  class Connection {
    const recvBuffer: array<byte>
    var recvBufferLen: nat

    ghost predicate Valid()
      reads this
    {
      recvBuffer.Length == BUFFER_SIZE && recvBufferLen <= BUFFER_SIZE
    }

    /** The bytes received and not yet handed on. */
    ghost function Contents(): seq<byte>
      requires Valid()
      reads this, recvBuffer
    {
      recvBuffer[..recvBufferLen]
    }

    constructor ()
      ensures Valid() && fresh(recvBuffer) && Contents() == []
    {
      recvBuffer := new byte[BUFFER_SIZE](_ => 0);
      recvBufferLen := 0;
    }

    /** recv: the bytes go behind those already there. */
    method Append(chunk: seq<byte>)
      requires Valid() && |chunk| <= BUFFER_SIZE - recvBufferLen
      modifies this, recvBuffer
      ensures Valid() && Contents() == old(Contents()) + chunk
    {
      for i := 0 to |chunk|
        invariant recvBufferLen == old(recvBufferLen)
        invariant recvBuffer[..recvBufferLen + i] == old(Contents()) + chunk[..i]
      {
        recvBuffer[recvBufferLen + i] := chunk[i];
      }
      recvBufferLen := recvBufferLen + |chunk|;
    }

    /** The length prefix at the cursor. */
    method LengthAt(processed: nat) returns (n: nat)
      requires Valid() && processed + 4 <= recvBufferLen
      ensures n == Be32(Contents()[processed..])
    {
      n := Be32(recvBuffer[processed..processed + 4]);
      assert recvBuffer[processed..processed + 4] == Contents()[processed..processed + 4];
      PrefixAt(Contents(), processed);
    }

    method Extract(processed: nat, n: nat) returns (message: seq<byte>)
      requires Valid() && processed + n <= recvBufferLen
      ensures message == Contents()[processed..processed + n]
    {
      message := recvBuffer[processed..processed + n];
    }

    /** The processing loop: hands on every whole frame, in order. */
    method Process() returns (messages: seq<seq<byte>>, processed: nat)
      requires Valid() && Sane(Contents())
      ensures processed <= recvBufferLen
      ensures messages == Frames(Contents())
      ensures Contents()[processed..] == Residue(Contents())
    {
      processed := 0;
      messages := [];
      ghost var all := Contents();
      NothingParsed(all);
      while processed < recvBufferLen
        invariant processed <= recvBufferLen && Contents() == all && Parsed(all, processed, messages)
      {
        if recvBufferLen - processed < 4 {
          break;
        }
        var msgLen := LengthAt(processed);
        if recvBufferLen - processed < 4 + msgLen {
          break;
        }
        var message := Extract(processed, 4 + msgLen);
        FrameParsed(all, processed, messages, message);
        messages := messages + [message];
        processed := processed + 4 + msgLen;
      }
      AllParsed(all, processed, messages);
    }

    /** The cursor stands behind the frames handed on. */
    static ghost predicate Parsed(all: seq<byte>, processed: nat, messages: seq<seq<byte>>) {
      && processed <= |all|
      && messages + Frames(all[processed..]) == Frames(all)
      && Residue(all[processed..]) == Residue(all) && Sane(all[processed..])
    }

    static lemma NothingParsed(all: seq<byte>)
      requires Sane(all)
      ensures Parsed(all, 0, [])
    {
      NothingConcat(Frames(all));
      assert all[0..] == all;
    }

    /** Handing on the frame at the cursor leaves the rest of the parse. */
    static lemma FrameParsed(all: seq<byte>, processed: nat, messages: seq<seq<byte>>, message: seq<byte>)
      requires Parsed(all, processed, messages) && Complete(all[processed..])
      requires processed + 4 + Be32(all[processed..]) <= |all|
      requires message == all[processed..processed + 4 + Be32(all[processed..])]
      ensures Parsed(all, processed + 4 + Be32(all[processed..]), messages + [message])
    {
      var s := all[processed..];
      var next := processed + 4 + Be32(s);
      assert s[..4 + Be32(s)] == message;
      assert s[4 + Be32(s)..] == all[next..];
      ConcatAssociative(messages, [message], Frames(all[next..]));
    }

    static lemma AllParsed(all: seq<byte>, processed: nat, messages: seq<seq<byte>>)
      requires Parsed(all, processed, messages) && !Complete(all[processed..])
      ensures messages == Frames(all) && all[processed..] == Residue(all)
    {
      ConcatNothing(messages);
    }

    /** memmove of what is left to the front of the buffer. */
    method Compact(processed: nat)
      requires Valid() && processed <= recvBufferLen
      modifies this, recvBuffer
      ensures Valid() && Contents() == old(Contents())[processed..]
    {
      if processed > 0 {
        var remaining := recvBufferLen - processed;
        for i := 0 to remaining
          invariant recvBuffer[..i] == old(Contents())[processed..processed + i]
          invariant forall j :: i <= j < BUFFER_SIZE ==> recvBuffer[j] == old(recvBuffer[j])
          invariant recvBufferLen == old(recvBufferLen)
        {
          recvBuffer[i] := recvBuffer[processed + i];
        }
        recvBufferLen := remaining;
      }
    }

    /** One readable event: `chunk` is what recv delivers, at most the free space
        and not empty. A full buffer closes the connection instead. */
    method Receive(chunk: seq<byte>) returns (messages: seq<seq<byte>>, alive: bool)
      requires Valid() && Sane(Contents() + chunk)
      requires recvBufferLen < BUFFER_SIZE ==> 1 <= |chunk| <= BUFFER_SIZE - recvBufferLen
      modifies this, recvBuffer
      ensures Valid()
      ensures alive <==> old(recvBufferLen) < BUFFER_SIZE
      ensures alive ==> messages == Frames(old(Contents()) + chunk) && Contents() == Residue(old(Contents()) + chunk)
      ensures !alive ==> messages == [] && Contents() == old(Contents())
    {
      if BUFFER_SIZE - recvBufferLen <= 0 {
        return [], false;
      }
      Append(chunk);
      var processed;
      messages, processed := Process();
      Compact(processed);
      alive := true;
    }
  }

  // ----- Any split of the stream -----

  function Flatten(chunks: seq<seq<byte>>): seq<byte> {
    if chunks == [] then [] else chunks[0] + Flatten(chunks[1..])
  }

  /** The receive events for these chunks, from a buffer holding `buf`: all
      messages handed on, the buffer afterwards, and whether the connection is
      still alive. */
  function ReceiveAll(buf: seq<byte>, chunks: seq<seq<byte>>): (seq<seq<byte>>, seq<byte>, bool)
    decreases |chunks|
  {
    if chunks == [] then ([], buf, true)
    else if |buf| >= BUFFER_SIZE then ([], buf, false)
    else
      var (later, end, alive) := ReceiveAll(Residue(buf + chunks[0]), chunks[1..]);
      (Frames(buf + chunks[0]) + later, end, alive)
  }

  /** Chunks that recv can deliver: never empty, never more than the free space. */
  predicate Deliverable(buf: seq<byte>, chunks: seq<seq<byte>>)
    decreases |chunks|
  {
    chunks != [] && |buf| < BUFFER_SIZE ==>
      1 <= |chunks[0]| <= BUFFER_SIZE - |buf| && Deliverable(Residue(buf + chunks[0]), chunks[1..])
  }

  /** How the stream was cut does not matter: unless the buffer filled up, the
      messages are those of parsing everything at once, in order, and the buffer
      holds exactly the bytes not yet consumed. */
  lemma {:induction false} ChunkingDoesNotMatter(buf: seq<byte>, chunks: seq<seq<byte>>)
    requires !Complete(buf) && Deliverable(buf, chunks)
    ensures var (messages, end, alive) := ReceiveAll(buf, chunks);
            alive ==> messages == Frames(buf + Flatten(chunks)) && end == Residue(buf + Flatten(chunks))
    decreases |chunks|
  {
    if chunks == [] {
      ConcatNothing(buf);
    } else if |buf| < BUFFER_SIZE {
      var rest := Flatten(chunks[1..]);
      ChunkingDoesNotMatter(Residue(buf + chunks[0]), chunks[1..]);
      ParseResumes(buf + chunks[0], rest);
      ConcatAssociative(buf, chunks[0], rest);
    }
  }

  /** Every readable event of one connection, one after the other. */
  method ReceiveEach(c: Connection, chunks: seq<seq<byte>>) returns (messages: seq<seq<byte>>, alive: bool)
    requires c.Valid() && Sane(c.Contents() + Flatten(chunks)) && Deliverable(c.Contents(), chunks)
    modifies c, c.recvBuffer
    ensures c.Valid() && (messages, c.Contents(), alive) == ReceiveAll(old(c.Contents()), chunks)
  {
    messages, alive := [], true;
    var i := 0;
    ghost var all := ReceiveAll(c.Contents(), chunks);
    NothingConcat(all.0);
    assert chunks[0..] == chunks;
    while i < |chunks| && alive
      invariant i <= |chunks| && c.Valid()
      invariant alive ==> Sane(c.Contents() + Flatten(chunks[i..])) && Deliverable(c.Contents(), chunks[i..])
      invariant alive ==> all == Prefixed(messages, ReceiveAll(c.Contents(), chunks[i..]))
      invariant !alive ==> all == (messages, c.Contents(), false)
      decreases |chunks| - i, alive
    {
      ghost var before := c.Contents();
      NextChunk(before, chunks[i..], messages);
      var more;
      more, alive := c.Receive(chunks[i]);
      messages := messages + more;
      if alive {
        i := i + 1;
      }
    }
    ConcatNothing(messages);
  }

  ghost function Prefixed(earlier: seq<seq<byte>>, later: (seq<seq<byte>>, seq<byte>, bool))
    : (seq<seq<byte>>, seq<byte>, bool)
  {
    (earlier + later.0, later.1, later.2)
  }

  lemma NextChunk(buf: seq<byte>, chunks: seq<seq<byte>>, earlier: seq<seq<byte>>)
    requires chunks != [] && Sane(buf + Flatten(chunks)) && Deliverable(buf, chunks)
    ensures Sane(buf + chunks[0])
    ensures |buf| < BUFFER_SIZE ==>
              && Sane(Residue(buf + chunks[0]) + Flatten(chunks[1..]))
              && Prefixed(earlier, ReceiveAll(buf, chunks))
                 == Prefixed(earlier + Frames(buf + chunks[0]), ReceiveAll(Residue(buf + chunks[0]), chunks[1..]))
    ensures |buf| >= BUFFER_SIZE ==> Prefixed(earlier, ReceiveAll(buf, chunks)) == (earlier + [], buf, false)
  {
    var rest := Flatten(chunks[1..]);
    ConcatAssociative(buf, chunks[0], rest);
    SanePrefix(buf + chunks[0], rest);
    ConcatAssociative(earlier, Frames(buf + chunks[0]), ReceiveAll(Residue(buf + chunks[0]), chunks[1..]).0);
  }

  // ----- The overflow disconnect -----

  /** A buffer fills up only with the front part of a frame longer than itself. */
  lemma OnlyOversizeFills(s: seq<byte>)
    requires |Residue(s)| >= BUFFER_SIZE
    ensures 4 + Be32(Residue(s)) > |Residue(s)| >= BUFFER_SIZE
  {
  }

  predicate FitBuffer(payloads: seq<seq<byte>>) {
    forall i :: 0 <= i < |payloads| ==> 4 + |payloads[i]| <= BUFFER_SIZE
  }

  /** A client whose frames each fit the buffer is never cut off: whatever part
      of its stream has arrived, in whatever pieces, its first frames have been
      handed on whole and in order, and the buffer holds a proper part of the
      next one. */
  lemma {:induction false} NoOverflow(payloads: seq<seq<byte>>, sofar: seq<byte>, chunks: seq<seq<byte>>)
    requires FitBuffer(payloads) && Sendable(payloads)
    requires sofar + Flatten(chunks) <= WireAll(payloads)
    requires Deliverable(Residue(sofar), chunks)
    ensures var (messages, end, alive) := ReceiveAll(Residue(sofar), chunks);
            && alive
            && |end| < BUFFER_SIZE
            && Underway(payloads, Frames(sofar) + messages, end)
    decreases |chunks|
  {
    PartOf(sofar, Flatten(chunks), WireAll(payloads));
    PartParses(payloads, sofar);
    if chunks == [] {
      ConcatNothing(Frames(sofar));
    } else {
      var next := sofar + chunks[0];
      ConcatAssociative(sofar, chunks[0], Flatten(chunks[1..]));
      ParseResumes(sofar, chunks[0]);
      NoOverflow(payloads, next, chunks[1..]);
      ConcatAssociative(Frames(sofar), Frames(Residue(sofar) + chunks[0]), ReceiveAll(Residue(next), chunks[1..]).0);
    }
  }

  lemma PartOf<T>(a: seq<T>, b: seq<T>, c: seq<T>)
    requires a + b <= c
    ensures a <= c
  {
    assert a == (a + b)[..|a|];
  }

  /** The whole of a client's stream, in any pieces, arrives as its frames. */
  lemma ClientDelivery(payloads: seq<seq<byte>>, chunks: seq<seq<byte>>)
    requires FitBuffer(payloads) && Sendable(payloads)
    requires Flatten(chunks) == WireAll(payloads) && Deliverable([], chunks)
    ensures ReceiveAll([], chunks) == (WireFrames(payloads), [], true)
  {
    NothingConcat(Flatten(chunks));
    NothingConcat(ReceiveAll([], chunks).0);
    NoOverflow(payloads, [], chunks);
    ChunkingDoesNotMatter([], chunks);
    WireParses(payloads);
  }
}
