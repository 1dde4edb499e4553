/** The named pipe: frames written by the agent and reassembled by the service from partial reads. */
module PipeFraming {
  import opened Wrappers
  import opened BinaryIO
  import opened PipeMessages

  const MAX_LENGTH := 10 * 1024 * 1024

  function Frame(body: Bytes): Bytes
    requires |body| < 0x8000_0000
  {
    Int32Bytes(|body|) + body
  }

  // ---- The agent's side ---------------------------------------------------------------------

  class PipeClient {
    var written: Bytes

    constructor ()
      ensures written == []
    {
      written := [];
    }

    method WriteAsync(b: Bytes)
      modifies this
      ensures written == old(written) + b
    {
      written := written + b;
    }

    /** `IpcService.SendMessageAsync` on a fresh connection: handshake, length, body. */
    method SendMessage(m: Message)
      requires |Encode(m)| < 0x8000_0000
      modifies this
      ensures written == old(written) + UInt32Bytes(m.sessionId) + Frame(Encode(m))
    {
      var messageBytes := Serialize(m);
      WriteAsync(UInt32Bytes(m.sessionId));
      WriteAsync(Int32Bytes(|messageBytes|));
      WriteAsync(messageBytes);
      assert written == old(written) + UInt32Bytes(m.sessionId) + Frame(Encode(m));
    }
  }

  // ---- What a byte stream means -------------------------------------------------------------

  /** Why the message loop ended. */
  datatype Stop = Disconnected | HeaderCut | BadLength | BodyCut | BadMessage

  /** The messages in a byte stream, as one reads it without thinking about chunks. */
  function Received(b: Bytes): (seq<Message>, Stop)
    decreases |b|
  {
    if |b| == 0 then ([], Disconnected)
    else if |b| < 4 then ([], HeaderCut)
    else
      var length := ToInt32(b[..4]);
      if length <= 0 || length > MAX_LENGTH then ([], BadLength)
      else if |b| - 4 < length then ([], BodyCut)
      else
        match Decode(b[4..4 + length])
        case Err(_) => ([], BadMessage)
        case Ok((m, _)) =>
          var (ms, stop) := Received(b[4 + length..]);
          ([m] + ms, stop)
  }

  /** Each message as the event that raises it. */
  function Tagged(sessionId: uint32, ms: seq<Message>): seq<(uint32, Message)> {
    if |ms| == 0 then [] else Tagged(sessionId, ms[..|ms| - 1]) + [(sessionId, ms[|ms| - 1])]
  }

  /** What becomes of a connection that announced this session id: why it ended, if the id was free,
      and the session set and the raised messages after it. */
  function Served(id: uint32, stream: Bytes, sessions: set<uint32>, raised: seq<(uint32, Message)>)
    : (Option<Stop>, set<uint32>, seq<(uint32, Message)>)
  {
    if id in sessions then (None, if id > 0 then sessions - {id} else sessions, raised)
    else
      (Some(Received(stream).1),
       if id > 0 then sessions else sessions + {0},
       raised + Tagged(id, Received(stream).0))
  }

  // ---- The service's side -------------------------------------------------------------------

  function Min(a: nat, b: nat): nat {
    if a < b then a else b
  }

  /** The server end of a pipe. `onHand` bytes have arrived when the service reads for the first time,
      and that read hands over as many of them as it asks for; a later read hands over any non-empty
      part of what is on its way. */
  class PipeStream {
    var incoming: Bytes
    var started: bool
    const onHand: nat

    /** Nothing was read yet; the first read waits until there is something, or the stream ends. */
    ghost predicate Fresh()
      reads this
    {
      !started && onHand <= |incoming| && (onHand == 0 <==> incoming == [])
    }

    constructor (bytes: Bytes, onHand: nat)
      requires onHand <= |bytes| && (onHand == 0 <==> bytes == [])
      ensures Fresh() && incoming == bytes && this.onHand == onHand
    {
      incoming, started, this.onHand := bytes, false, onHand;
    }

    method ReadAsync(buffer: array<byte>, offset: nat, count: nat) returns (n: nat)
      requires count > 0 && offset + count <= buffer.Length
      modifies this, buffer
      ensures n <= count && n <= |old(incoming)|
      ensures n == 0 <==> old(incoming) == []
      ensures old(Fresh()) ==> n == Min(onHand, count)
      ensures started && incoming == old(incoming)[n..]
      ensures forall i :: 0 <= i < n ==> buffer[offset + i] == old(incoming)[i]
      ensures forall i :: 0 <= i < buffer.Length && !(offset <= i < offset + n) ==> buffer[i] == old(buffer[i])
    {
      var first := !started;
      started := true;
      if incoming == [] {
        return 0;
      }
      if first && 1 <= onHand <= |incoming| {
        n := Min(onHand, count);
      } else {
        var most := Min(|incoming|, count);
        n :| 1 <= n <= most;
      }
      forall i | 0 <= i < n {
        buffer[offset + i] := incoming[i];
      }
      incoming := incoming[n..];
    }

    /** Reads on until the buffer is full, or the stream ends. The first `have` bytes of the stream
        `whole` are in the buffer already. */
    method Fill(buffer: array<byte>, have: nat, ghost whole: Bytes) returns (full: bool)
      requires have <= buffer.Length && have <= |whole|
      requires incoming == whole[have..] && buffer[..have] == whole[..have]
      modifies this, buffer
      ensures full <==> |whole| >= buffer.Length
      ensures full ==> buffer[..] == whole[..buffer.Length] && incoming == whole[buffer.Length..]
    {
      var totalRead := have;
      forall i | 0 <= i < have ensures buffer[i] == whole[i] {
        assert buffer[..have][i] == whole[..have][i];
      }
      while totalRead < buffer.Length
        invariant have <= totalRead <= buffer.Length && totalRead <= |whole|
        invariant incoming == whole[totalRead..]
        invariant forall i :: 0 <= i < totalRead ==> buffer[i] == whole[i]
        decreases buffer.Length - totalRead
      {
        var read := ReadAsync(buffer, totalRead, buffer.Length - totalRead);
        if read == 0 {
          return false;
        }
        totalRead := totalRead + read;
      }
      return true;
    }
  }

  class NamedPipeServer {
    var sessions: set<uint32>
    var messageReceived: seq<(uint32, Message)>

    constructor ()
      ensures sessions == {} && messageReceived == []
    {
      sessions, messageReceived := {}, [];
    }

    /** One connection, from handshake to the final clean-up. Unlike the later reads the first one is
        not completed: it is served exactly when the whole handshake is on hand. Otherwise it is turned
        away, and so is a taken session id, whose holder the clean-up then forgets. */
    method HandleClient(pipe: PipeStream) returns (stop: Option<Stop>)
      requires pipe.Fresh()
      modifies this, pipe
      ensures pipe.onHand < 4 ==>
        stop == None && sessions == old(sessions) && messageReceived == old(messageReceived)
      ensures pipe.onHand >= 4 ==>
        (stop, sessions, messageReceived)
        == Served(ToUInt32(old(pipe.incoming)[..4]), old(pipe.incoming)[4..], old(sessions), old(messageReceived))
    {
      var sessionIdBytes := new byte[4](_ => 0);
      var bytesRead := pipe.ReadAsync(sessionIdBytes, 0, 4);
      if bytesRead != 4 {
        return None;
      }
      assert sessionIdBytes[..] == old(pipe.incoming)[..4];
      stop := ServeSession(pipe, ToUInt32(sessionIdBytes[..]));
    }

    /** What follows the handshake. */
    method ServeSession(pipe: PipeStream, sessionId: uint32) returns (stop: Option<Stop>)
      modifies this, pipe
      ensures (stop, sessions, messageReceived)
           == Served(sessionId, old(pipe.incoming), old(sessions), old(messageReceived))
    {
      hide Received;
      if sessionId in sessions {
        stop := None;
      } else {
        sessions := sessions + {sessionId};
        var reason := MessageLoop(pipe, sessionId);
        stop := Some(reason);
      }
      CleanUp(sessionId);
    }

    /** The `finally` block, on every way out. */
    method CleanUp(sessionId: uint32)
      modifies this`sessions
      ensures sessions == if sessionId > 0 then old(sessions) - {sessionId} else old(sessions)
    {
      if sessionId > 0 {
        sessions := sessions - {sessionId};
      }
    }

    /** The length prefix, completed by further reads when the first one brings only part of it. */
    method ReadHeader(pipe: PipeStream) returns (r: Result<int32, Stop>)
      modifies pipe
      ensures var b := old(pipe.incoming);
        if |b| == 0 then r == Err(Disconnected)
        else if |b| < 4 then r == Err(HeaderCut)
        else r == Ok(ToInt32(b[..4])) && pipe.incoming == b[4..]
    {
      ghost var b := pipe.incoming;
      var lengthBuffer := new byte[4](_ => 0);
      var bytesRead := pipe.ReadAsync(lengthBuffer, 0, 4);
      if bytesRead == 0 {
        return Err(Disconnected);
      }
      assert lengthBuffer[..bytesRead] == b[..bytesRead];
      if bytesRead < 4 {
        var full := pipe.Fill(lengthBuffer, bytesRead, b);
        if !full {
          return Err(HeaderCut);
        }
      }
      assert lengthBuffer[..] == b[..4];
      return Ok(ToInt32(lengthBuffer[..]));
    }

    method ReadBody(pipe: PipeStream, messageLength: nat) returns (r: Result<Bytes, Stop>)
      modifies pipe
      ensures var b := old(pipe.incoming);
        if |b| < messageLength then r == Err(BodyCut)
        else r == Ok(b[..messageLength]) && pipe.incoming == b[messageLength..]
    {
      ghost var b := pipe.incoming;
      var messageBuffer := new byte[messageLength](_ => 0);
      var full := pipe.Fill(messageBuffer, 0, b);
      if !full {
        return Err(BodyCut);
      }
      assert messageBuffer[..] == b[..messageLength];
      return Ok(messageBuffer[..]);
    }

    /** One pass of the message loop: the next message of the stream, or why there is none. */
    method ReceiveOne(pipe: PipeStream) returns (r: Result<Message, Stop>)
      modifies pipe
      ensures match r
        case Ok(m) =>
          && |pipe.incoming| < |old(pipe.incoming)|
          && Received(old(pipe.incoming)) == ([m] + Received(pipe.incoming).0, Received(pipe.incoming).1)
        case Err(stop) => Received(old(pipe.incoming)) == ([], stop)
    {
      ghost var b := pipe.incoming;
      var header := ReadHeader(pipe);
      if header.Err? {
        return Err(header.error);
      }
      var messageLength := header.value;
      if messageLength <= 0 || messageLength > MAX_LENGTH {
        return Err(BadLength);
      }
      var body := ReadBody(pipe, messageLength);
      if body.Err? {
        return Err(body.error);
      }
      assert body.value == b[4..4 + messageLength] && pipe.incoming == b[4 + messageLength..];
      assert body.value[..messageLength] == body.value;
      var message := Deserialize(body.value, messageLength);
      if message.Err? {
        return Err(BadMessage);
      }
      return Ok(message.value);
    }

    /** The message loop: raises exactly the messages of the stream, however it is cut into reads. */
    method MessageLoop(pipe: PipeStream, sessionId: uint32) returns (stop: Stop)
      modifies this`messageReceived, pipe
      ensures messageReceived == old(messageReceived) + Tagged(sessionId, Received(old(pipe.incoming)).0)
      ensures stop == Received(old(pipe.incoming)).1
    {
      hide Received;
      ghost var got: seq<Message> := [];
      assert messageReceived == messageReceived + Tagged(sessionId, got);
      assert Received(pipe.incoming).0 == got + Received(pipe.incoming).0;
      while true
        invariant messageReceived == old(messageReceived) + Tagged(sessionId, got)
        invariant Received(old(pipe.incoming)) == (got + Received(pipe.incoming).0, Received(pipe.incoming).1)
        decreases |pipe.incoming|
      {
        ghost var next := Received(pipe.incoming);
        var message := ReceiveOne(pipe);
        if message.Err? {
          assert got + [] == got;
          return message.error;
        }
        assert got + next.0 == got + [message.value] + Received(pipe.incoming).0;
        messageReceived := messageReceived + [(sessionId, message.value)];
        TaggedSnoc(sessionId, got, message.value);
        got := got + [message.value];
      }
    }
  }

  lemma {:induction false} TaggedSnoc(sessionId: uint32, ms: seq<Message>, m: Message)
    ensures Tagged(sessionId, ms + [m]) == Tagged(sessionId, ms) + [(sessionId, m)]
  {
    assert (ms + [m])[..|ms|] == ms;
  }

  // ---- Framing is transparent ---------------------------------------------------------------

  /** At most 10 MiB. */
  predicate Fits(m: Message) {
    |Encode(m)| <= 10_485_760
  }

  function Frames(ms: seq<Message>): Bytes
    requires forall i :: 0 <= i < |ms| ==> Fits(ms[i])
  {
    if |ms| == 0 then []
    else
      assert Fits(ms[0]);
      Frame(Encode(ms[0])) + Frames(ms[1..])
  }

  function Normals(ms: seq<Message>): (r: seq<Message>)
    ensures |r| == |ms|
  {
    if |ms| == 0 then [] else [Normal(ms[0])] + Normals(ms[1..])
  }

  /** One frame at the head of a stream is read as its message. */
  lemma {:induction false} ReceiveFrame(m: Message, rest: Bytes)
    requires Fits(m)
    ensures Received(Frame(Encode(m)) + rest) == ([Normal(m)] + Received(rest).0, Received(rest).1)
  {
    var body := Encode(m);
    var b := Frame(body) + rest;
    FixedRoundTrips(|body|, 0, 0);
    assert b[..4] == Int32Bytes(|body|) && b[4..4 + |body|] == body && b[4 + |body|..] == rest;
    assert body + [] == body;
    RoundTrip(m, []);
  }

  /** Any list of messages that fit is received as sent, in order, and the stream ends cleanly. */
  lemma {:induction false} ReceiveFrames(ms: seq<Message>)
    requires forall i :: 0 <= i < |ms| ==> Fits(ms[i])
    ensures Received(Frames(ms)) == (Normals(ms), Disconnected)
  {
    if |ms| > 0 {
      ReceiveFrames(ms[1..]);
      ReceiveFrame(ms[0], Frames(ms[1..]));
    }
  }

  /** A length that is not positive or over 10 MiB ends the connection, and nothing behind it is read. */
  lemma {:induction false} ReceiveBadLength(length: int32, rest: Bytes)
    requires length <= 0 || length > 10_485_760
    ensures Received(Int32Bytes(length) + rest) == ([], BadLength)
  {
    FixedRoundTrips(length, 0, 0);
    assert (Int32Bytes(length) + rest)[..4] == Int32Bytes(length);
  }

  /** So does a message that does not fit. */
  lemma {:induction false} ReceiveOversized(m: Message, rest: Bytes)
    requires !Fits(m) && |Encode(m)| < 0x8000_0000
    ensures Received(Frame(Encode(m)) + rest) == ([], BadLength)
  {
    ReceiveBadLength(|Encode(m)|, Encode(m) + rest);
    assert Frame(Encode(m)) + rest == Int32Bytes(|Encode(m)|) + (Encode(m) + rest);
  }

  /** A frame of any other length is read as a whole: it is a message or ends the connection. */
  lemma {:induction false} ReceiveBody(body: NetBytes, rest: Bytes)
    requires 1 <= |body| <= 10_485_760
    ensures Received(Frame(body) + rest) ==
      match Decode(body)
      case Err(_) => ([], BadMessage)
      case Ok((m, _)) => ([m] + Received(rest).0, Received(rest).1)
  {
    var b := Frame(body) + rest;
    FixedRoundTrips(|body|, 0, 0);
    assert b[..4] == Int32Bytes(|body|) && b[4..4 + |body|] == body && b[4 + |body|..] == rest;
  }

  /** A stream cut anywhere inside its last frame delivers all complete messages before it. */
  lemma {:induction false} ReceiveCut(ms: seq<Message>, last: Message, n: nat)
    requires (forall i :: 0 <= i < |ms| ==> Fits(ms[i])) && Fits(last)
    requires n < |Frame(Encode(last))|
    ensures Received(Frames(ms) + Frame(Encode(last))[..n]).0 == Normals(ms)
    ensures Received(Frames(ms) + Frame(Encode(last))[..n]).1
         == if n == 0 then Disconnected else if n < 4 then HeaderCut else BodyCut
  {
    var part := Frame(Encode(last))[..n];
    if |ms| > 0 {
      ReceiveCut(ms[1..], last, n);
      ReceiveFrame(ms[0], Frames(ms[1..]) + part);
      assert Frames(ms) + part == Frame(Encode(ms[0])) + (Frames(ms[1..]) + part);
    } else {
      assert Frames(ms) + part == part;
      FixedRoundTrips(|Encode(last)|, 0, 0);
      assert n >= 4 ==> part[..4] == Int32Bytes(|Encode(last)|);
    }
  }

  /** Agent to service: what one `SendMessageAsync` writes is delivered exactly when it fits. */
  lemma {:induction false} AgentToService(m: Message)
    requires |Encode(m)| < 0x8000_0000
    ensures var stream := UInt32Bytes(m.sessionId) + Frame(Encode(m));
      && ToUInt32(stream[..4]) == m.sessionId
      && (Received(stream[4..]) == ([Normal(m)], Disconnected) <==> Fits(m))
  {
    var stream := UInt32Bytes(m.sessionId) + Frame(Encode(m));
    FixedRoundTrips(0, m.sessionId, 0);
    assert stream[..4] == UInt32Bytes(m.sessionId);
    assert stream[4..] == Frame(Encode(m)) == Frame(Encode(m)) + [];
    assert Received([]) == ([], Disconnected);
    if Fits(m) {
      ReceiveFrame(m, []);
      assert [Normal(m)] + [] == [Normal(m)];
    } else {
      ReceiveOversized(m, []);
    }
  }

  /** A whole connection, for any session id and any list of messages that fit: with a free id all of
      them are raised, in order, under that id, the stream ends cleanly, and the session set is as
      before, except that id 0 stays in it; with a taken id nothing is raised and the id is forgotten. */
  lemma {:induction false} ConnectionDelivers(
    id: uint32, ms: seq<Message>, sessions: set<uint32>, raised: seq<(uint32, Message)>)
    requires forall i :: 0 <= i < |ms| ==> Fits(ms[i])
    ensures var stream := UInt32Bytes(id) + Frames(ms);
      Served(ToUInt32(stream[..4]), stream[4..], sessions, raised) ==
      if id in sessions then (None, if id == 0 then sessions else sessions - {id}, raised)
      else (Some(Disconnected), if id == 0 then sessions + {0} else sessions, raised + Tagged(id, Normals(ms)))
  {
    var stream := UInt32Bytes(id) + Frames(ms);
    FixedRoundTrips(0, id, 0);
    assert stream[..4] == UInt32Bytes(id) && stream[4..] == Frames(ms);
    ReceiveFrames(ms);
  }

  /** The same from the agent's bytes to the service's events, whatever reads the pipe makes of the
      bytes behind the handshake. */
  method Deliver(server: NamedPipeServer, id: uint32, ms: seq<Message>, onHand: nat) returns (stop: Option<Stop>)
    requires forall i :: 0 <= i < |ms| ==> Fits(ms[i])
    requires 4 <= onHand <= 4 + |Frames(ms)|
    modifies server
    ensures id !in old(server.sessions) ==>
      && stop == Some(Disconnected)
      && server.messageReceived == old(server.messageReceived) + Tagged(id, Normals(ms))
      && server.sessions == old(server.sessions) + if id == 0 then {0} else {}
    ensures id in old(server.sessions) ==>
      && stop == None && server.messageReceived == old(server.messageReceived)
      && server.sessions == old(server.sessions) - if id == 0 then {} else {id}
  {
    var pipe := new PipeStream(UInt32Bytes(id) + Frames(ms), onHand);
    ConnectionDelivers(id, ms, server.sessions, server.messageReceived);
    stop := server.HandleClient(pipe);
  }
}
