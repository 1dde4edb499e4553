/** `PipeMessage`: the binary form of one message between agent and service. */
module PipeMessages {
  import opened Wrappers
  import opened BinaryIO

  /** `DateTime.Ticks`. */
  const MAX_TICKS := 3_155_378_975_999_999_999
  type Ticks = t: int | 0 <= t <= MAX_TICKS

  /** Strings are their UTF-8 bytes; `None` is `null`. */
  datatype Message = Message(
    messageType: int32, messageId: NetBytes, createdTicks: Ticks, sessionId: uint32,
    userSid: Option<NetBytes>, metadata: Option<NetBytes>, payload: Option<NetBytes>)

  datatype MessageError = InvalidData | DeserializationFailed

  function OrEmpty(b: Option<NetBytes>): NetBytes {
    if b.Some? then b.value else []
  }

  /** What the wire can represent: an empty SID or payload is `null`, absent metadata is empty. */
  function Normal(m: Message): Message {
    m.(userSid := if m.userSid == Some([]) then None else m.userSid,
       metadata := Some(OrEmpty(m.metadata)),
       payload := if m.payload == Some([]) then None else m.payload)
  }

  // ---- Writing ------------------------------------------------------------------------------

  function HeaderBytes(m: Message): Bytes {
    Int32Bytes(m.messageType) + StringBytes(m.messageId) + Int64Bytes(m.createdTicks)
    + UInt32Bytes(m.sessionId) + StringBytes(OrEmpty(m.userSid))
  }

  function MetadataBytes(metadata: NetBytes): Bytes {
    Int32Bytes(|metadata|) + metadata
  }

  function PayloadBytes(payload: NetBytes): Bytes {
    Int32Bytes(|payload|) + payload
  }

  function Encode(m: Message): (r: Bytes)
    ensures |r| > 0
  {
    HeaderBytes(m) + MetadataBytes(OrEmpty(m.metadata)) + PayloadBytes(OrEmpty(m.payload))
  }

  method Serialize(m: Message) returns (r: Bytes)
    ensures r == Encode(m)
  {
    var writer := new BinaryWriter();
    writer.WriteInt32(m.messageType);
    writer.WriteString(m.messageId);
    writer.WriteInt64(m.createdTicks);
    writer.WriteUInt32(m.sessionId);
    writer.WriteString(OrEmpty(m.userSid));
    assert writer.stream == HeaderBytes(m);
    var metadataBytes := OrEmpty(m.metadata);
    writer.WriteInt32(|metadataBytes|);
    writer.WriteBytes(metadataBytes);
    assert writer.stream == HeaderBytes(m) + MetadataBytes(metadataBytes);
    writer.WriteInt32(|OrEmpty(m.payload)|);
    if m.payload.Some? && |m.payload.value| > 0 {
      writer.WriteBytes(m.payload.value);
    }
    r := writer.stream;
    assert r == HeaderBytes(m) + MetadataBytes(metadataBytes) + PayloadBytes(OrEmpty(m.payload));
  }

  // ---- Reading ------------------------------------------------------------------------------

  datatype Header = Header(messageType: int32, messageId: Bytes, createdTicks: int64, sessionId: uint32, userSid: Bytes)

  function TakeHeader(b: Bytes): Result<(Header, Bytes), ReadError> {
    match TakeInt32(b) case Err(e) => Err(e) case Ok((messageType, b1)) =>
    match TakeString(b1) case Err(e) => Err(e) case Ok((messageId, b2)) =>
    match TakeInt64(b2) case Err(e) => Err(e) case Ok((createdTicks, b3)) =>
    match TakeUInt32(b3) case Err(e) => Err(e) case Ok((sessionId, b4)) =>
    match TakeString(b4) case Err(e) => Err(e) case Ok((userSid, b5)) =>
    Ok((Header(messageType, messageId, createdTicks, sessionId, userSid), b5))
  }

  /** A length and that many bytes, or fewer when the stream ends; `null` for a payload of none. */
  function TakeMetadata(b: Bytes): Result<(Bytes, Bytes), ReadError> {
    match TakeInt32(b) case Err(e) => Err(e) case Ok((n, b1)) => TakeUpTo(b1, n)
  }

  function TakePayload(b: Bytes): Result<(Option<Bytes>, Bytes), ReadError> {
    match TakeInt32(b) case Err(e) => Err(e) case Ok((n, b1)) =>
    if n <= 0 then Ok((None, b1))
    else match TakeUpTo(b1, n) case Err(e) => Err(e) case Ok((payload, b2)) => Ok((Some(payload), b2))
  }

  /** The message, and the bytes after it that `Deserialize` ignores. */
  function Decode(b: NetBytes): Result<(Message, Bytes), ReadError> {
    match TakeHeader(b) case Err(e) => Err(e) case Ok((h, b1)) =>
    match TakeMetadata(b1) case Err(e) => Err(e) case Ok((metadata, b2)) =>
    match TakePayload(b2) case Err(e) => Err(e) case Ok((payload, b3)) =>
    if !(0 <= h.createdTicks <= MAX_TICKS) then Err(BadFormat)
    else
      TakesShrink(b);
      Ok((Message(h.messageType, h.messageId, h.createdTicks, h.sessionId,
                  if h.userSid == [] then None else Some(h.userSid), Some(metadata), payload), b3))
  }

  /** Nothing that was read is longer than the input. */
  lemma {:induction false} TakesShrink(b: Bytes)
    ensures var h := TakeHeader(b);
      h.Ok? ==>
        && |h.value.0.messageId| <= |b| && |h.value.0.userSid| <= |b| && |h.value.1| <= |b|
        && var m := TakeMetadata(h.value.1);
           m.Ok? ==>
             && |m.value.0| <= |b| && |m.value.1| <= |b|
             && var p := TakePayload(m.value.1);
                p.Ok? && p.value.0.Some? ==> |p.value.0.value| <= |b|
  {
    HeaderShrinks(b);
  }

  lemma {:induction false} StringShrinks(b: Bytes)
    ensures var s := TakeString(b); s.Ok? ==> |s.value.0| + |s.value.1| <= |b|
  {
    TakeSevenBitShrinks(b, 0);
  }

  lemma {:induction false} HeaderShrinks(b: Bytes)
    ensures var h := TakeHeader(b);
      h.Ok? ==> |h.value.0.messageId| <= |b| && |h.value.0.userSid| <= |b| && |h.value.1| <= |b|
  {
    if TakeHeader(b).Ok? {
      StringShrinks(b[4..]);
      var b2 := TakeString(b[4..]).value.1;
      StringShrinks(b2[12..]);
      assert b2[8..][4..] == b2[12..];
    }
  }

  method Deserialize(data: NetBytes, length: int) returns (r: Result<Message, MessageError>)
    ensures length <= 0 || length > |data| ==> r == Err(InvalidData)
    ensures 0 < length <= |data| ==>
      r == match Decode(data[..length]) case Ok((m, _)) => Ok(m) case Err(_) => Err(DeserializationFailed)
  {
    if length <= 0 || length > |data| {
      return Err(InvalidData);
    }
    var reader := new BinaryReader(data[..length]);
    TakesShrink(data[..length]);
    r := Err(DeserializationFailed);
    var messageType := reader.ReadInt32();
    if messageType.Err? { return; }
    var messageId := reader.ReadString();
    if messageId.Err? { return; }
    var createdTicks := reader.ReadInt64();
    if createdTicks.Err? { return; }
    var sessionId := reader.ReadUInt32();
    if sessionId.Err? { return; }
    var userSid := reader.ReadString();
    if userSid.Err? { return; }
    var metadataLength := reader.ReadInt32();
    if metadataLength.Err? { return; }
    var metadata := reader.ReadBytes(metadataLength.value);
    if metadata.Err? { return; }
    var payloadLength := reader.ReadInt32();
    if payloadLength.Err? { return; }
    var payload := None;
    if payloadLength.value > 0 {
      var bytes := reader.ReadBytes(payloadLength.value);
      if bytes.Err? { return; }
      payload := Some(bytes.value);
    }
    if !(0 <= createdTicks.value <= MAX_TICKS) { return; }
    r := Ok(Message(messageType.value, messageId.value, createdTicks.value, sessionId.value,
                    if userSid.value == [] then None else Some(userSid.value), Some(metadata.value), payload));
  }

  // ---- Round trip ---------------------------------------------------------------------------

  lemma {:induction false} HeaderRoundTrip(m: Message, rest: Bytes)
    ensures TakeHeader(HeaderBytes(m) + rest)
         == Ok((Header(m.messageType, m.messageId, m.createdTicks, m.sessionId, OrEmpty(m.userSid)), rest))
  {
    var b4 := StringBytes(OrEmpty(m.userSid)) + rest;
    var b3 := UInt32Bytes(m.sessionId) + b4;
    var b2 := Int64Bytes(m.createdTicks) + b3;
    var b1 := StringBytes(m.messageId) + b2;
    assert HeaderBytes(m) + rest == Int32Bytes(m.messageType) + b1;
    StringRoundTrip(OrEmpty(m.userSid), rest);
    FixedTakes(0, m.sessionId, 0, b4);
    FixedTakes(0, 0, m.createdTicks, b3);
    StringRoundTrip(m.messageId, b2);
    FixedTakes(m.messageType, 0, 0, b1);
  }

  lemma {:induction false} MetadataRoundTrip(metadata: NetBytes, rest: Bytes)
    ensures TakeMetadata(MetadataBytes(metadata) + rest) == Ok((metadata, rest))
  {
    FixedTakes(|metadata|, 0, 0, metadata + rest);
    assert MetadataBytes(metadata) + rest == Int32Bytes(|metadata|) + (metadata + rest);
  }

  /** A payload of which only the bytes `sent` arrived before the stream ended. */
  lemma {:induction false} PayloadRoundTrip(payload: NetBytes, sent: NetBytes, rest: Bytes)
    requires sent <= payload && (rest != [] ==> sent == payload)
    ensures TakePayload(Int32Bytes(|payload|) + sent + rest) == Ok((if payload == [] then None else Some(sent), rest))
  {
    hide TakeInt32, Int32Bytes;
    FixedTakes(|payload|, 0, 0, sent + rest);
    assert Int32Bytes(|payload|) + sent + rest == Int32Bytes(|payload|) + (sent + rest);
    if sent == payload {
      assert (sent + rest)[|payload|..] == rest && (sent + rest)[..|payload|] == sent;
      if payload == [] {
        assert sent + rest == rest;
      }
    } else {
      assert sent + rest == sent;
    }
  }

  /** Reading an encoding whose payload was cut to `sent`. */
  lemma {:induction false} DecodeSent(m: Message, sent: NetBytes, rest: Bytes, b: NetBytes)
    requires sent <= OrEmpty(m.payload) && (rest != [] ==> sent == OrEmpty(m.payload))
    requires b == HeaderBytes(m) + MetadataBytes(OrEmpty(m.metadata)) + Int32Bytes(|OrEmpty(m.payload)|) + sent + rest
    ensures Decode(b) == Ok((Normal(m).(payload := if OrEmpty(m.payload) == [] then None else Some(sent)), rest))
  {
    hide TakeHeader, TakeMetadata, TakePayload, HeaderBytes, MetadataBytes;
    var tail := Int32Bytes(|OrEmpty(m.payload)|) + sent + rest;
    assert b == HeaderBytes(m) + (MetadataBytes(OrEmpty(m.metadata)) + tail);
    HeaderRoundTrip(m, MetadataBytes(OrEmpty(m.metadata)) + tail);
    MetadataRoundTrip(OrEmpty(m.metadata), tail);
    PayloadRoundTrip(OrEmpty(m.payload), sent, rest);
  }

  /** Reading back a message gives its normal form and consumes exactly its bytes. */
  lemma {:induction false} RoundTrip(m: Message, rest: Bytes)
    requires |Encode(m) + rest| < 0x8000_0000
    ensures Decode(Encode(m) + rest) == Ok((Normal(m), rest))
  {
    assert Encode(m) + rest == HeaderBytes(m) + MetadataBytes(OrEmpty(m.metadata))
      + Int32Bytes(|OrEmpty(m.payload)|) + OrEmpty(m.payload) + rest;
    DecodeSent(m, OrEmpty(m.payload), rest, Encode(m) + rest);
  }

  lemma {:induction false} NormalIdempotent(m: Message)
    ensures Normal(Normal(m)) == Normal(m)
    ensures Encode(Normal(m)) == Encode(m)
    ensures Normal(m).userSid != Some([]) && Normal(m).metadata != None && Normal(m).payload != Some([])
    ensures OrEmpty(Normal(m).userSid) == OrEmpty(m.userSid) && OrEmpty(Normal(m).payload) == OrEmpty(m.payload)
    ensures OrEmpty(Normal(m).metadata) == OrEmpty(m.metadata)
    ensures Normal(m).messageType == m.messageType && Normal(m).messageId == m.messageId
    ensures Normal(m).createdTicks == m.createdTicks && Normal(m).sessionId == m.sessionId
  {
  }

  /** Two messages share their bytes exactly when they share their normal form. */
  lemma {:induction false} EncodeInjective(m: Message, m': Message)
    requires |Encode(m)| < 0x8000_0000
    ensures Encode(m) == Encode(m') <==> Normal(m) == Normal(m')
  {
    NormalIdempotent(m);
    NormalIdempotent(m');
    if Encode(m) == Encode(m') {
      assert Encode(m) + [] == Encode(m) && Encode(m') + [] == Encode(m');
      RoundTrip(m, []);
      RoundTrip(m', []);
    }
  }

  /** No message is a proper prefix of another: a stream of messages is read one way only. */
  lemma {:induction false} EncodePrefixFree(m: Message, m': Message, rest: Bytes, rest': Bytes)
    requires |Encode(m) + rest| < 0x8000_0000
    requires Encode(m) + rest == Encode(m') + rest'
    ensures Normal(m) == Normal(m') && rest == rest'
  {
    RoundTrip(m, rest);
    RoundTrip(m', rest');
  }

  // ---- Cut encodings ------------------------------------------------------------------------

  lemma {:induction false} SevenBitExtends(b: Bytes, k: nat, more: Bytes)
    requires k <= 4 && TakeSevenBit(b, k).Ok?
    ensures TakeSevenBit(b + more, k) == Ok((TakeSevenBit(b, k).value.0, TakeSevenBit(b, k).value.1 + more))
    decreases 4 - k
  {
    assert (b + more)[1..] == b[1..] + more;
    if k < 4 && b[0] >= 128 {
      SevenBitExtends(b[1..], k + 1, more);
    }
  }

  lemma {:induction false} StringExtends(b: Bytes, more: Bytes)
    requires TakeString(b).Ok?
    ensures TakeString(b + more) == Ok((TakeString(b).value.0, TakeString(b).value.1 + more))
  {
    SevenBitExtends(b, 0, more);
    var (n, rest) := TakeSevenBit(b, 0).value;
    assert (rest + more)[..n] == rest[..n] && (rest + more)[n..] == rest[n..] + more;
  }

  lemma {:induction false} FixedExtends(b: Bytes, n: nat, more: Bytes)
    requires n <= |b|
    ensures (b + more)[..n] == b[..n] && (b + more)[n..] == b[n..] + more
  {
  }

  /** A header that was read from the front of a stream is read again when the stream goes on. */
  lemma {:induction false} HeaderExtends(b: Bytes, more: Bytes)
    requires TakeHeader(b).Ok?
    ensures TakeHeader(b + more) == Ok((TakeHeader(b).value.0, TakeHeader(b).value.1 + more))
  {
    FixedExtends(b, 4, more);
    StringExtends(b[4..], more);
    var b2 := TakeString(b[4..]).value.1;
    FixedExtends(b2, 8, more);
    FixedExtends(b2[8..], 4, more);
    StringExtends(b2[8..][4..], more);
  }

  /** A reader that got past the header of an encoding has all of its bytes. */
  lemma {:induction false} HeaderConsumed(m: Message, b: Bytes, rest: Bytes)
    requires b <= HeaderBytes(m) + rest && TakeHeader(b).Ok?
    ensures |b| >= |HeaderBytes(m)| && TakeHeader(b).value.1 == b[|HeaderBytes(m)|..]
  {
    hide TakeHeader, HeaderBytes;
    var whole := HeaderBytes(m) + rest;
    var more := whole[|b|..];
    assert whole == b + more;
    HeaderExtends(b, more);
    HeaderRoundTrip(m, rest);
    assert |TakeHeader(b).value.1 + more| == |rest|;
    assert rest == whole[|HeaderBytes(m)|..] && TakeHeader(b).value.1 == rest[..|rest| - |more|];
  }

  /** Metadata that was cut leaves nothing, and nothing holds no payload length. */
  lemma {:induction false} MetadataConsumed(metadata: NetBytes, b: Bytes, rest: Bytes)
    requires b <= MetadataBytes(metadata) + rest
    requires TakeMetadata(b).Ok? && TakePayload(TakeMetadata(b).value.1).Ok?
    ensures |b| >= |MetadataBytes(metadata)| + 4
  {
    FixedRoundTrips(|metadata|, 0, 0);
    assert b[..4] == Int32Bytes(|metadata|);
  }

  function Front(m: Message): Bytes {
    HeaderBytes(m) + MetadataBytes(OrEmpty(m.metadata)) + Int32Bytes(|OrEmpty(m.payload)|)
  }

  lemma {:induction false} FrontLength(m: Message)
    ensures |Encode(m)| == |Front(m)| + |OrEmpty(m.payload)|
    ensures Encode(m) == Front(m) + OrEmpty(m.payload)
  {
  }

  /** Bytes missing at the end of the payload are not noticed. */
  lemma {:induction false} CutInPayload(m: Message, b: NetBytes, missing: nat)
    requires b < Encode(m) && missing == |Encode(m)| - |b| <= |OrEmpty(m.payload)|
    ensures Decode(b) == Ok((Normal(m).(payload := Some(OrEmpty(m.payload)[..|OrEmpty(m.payload)| - missing])), []))
  {
    FrontLength(m);
    var sent := OrEmpty(m.payload)[..|OrEmpty(m.payload)| - missing];
    assert b == Front(m) + sent == Front(m) + sent + [];
    DecodeSent(m, sent, [], b);
  }

  /** Any other missing byte is. */
  lemma {:induction false} CutBeforePayload(m: Message, b: NetBytes, missing: nat)
    requires b < Encode(m) && missing == |Encode(m)| - |b| > |OrEmpty(m.payload)|
    ensures Decode(b).Err?
  {
    hide TakeHeader, TakeMetadata, TakePayload;
    FrontLength(m);
    var rest := MetadataBytes(OrEmpty(m.metadata)) + PayloadBytes(OrEmpty(m.payload));
    assert Encode(m) == HeaderBytes(m) + rest;
    if Decode(b).Ok? {
      HeaderConsumed(m, b, rest);
      assert b[|HeaderBytes(m)|..] <= rest;
      MetadataConsumed(OrEmpty(m.metadata), b[|HeaderBytes(m)|..], PayloadBytes(OrEmpty(m.payload)));
    }
  }

  /** Exactly which cuts are noticed: a proper prefix of an encoding is rejected unless all it lacks is
      payload, and then it is accepted with the payload that arrived. */
  lemma {:induction false} CutAcceptedIffInPayload(m: Message, b: NetBytes)
    requires b < Encode(m)
    ensures var missing, payload := |Encode(m)| - |b|, OrEmpty(m.payload);
      if missing <= |payload|
      then Decode(b) == Ok((Normal(m).(payload := Some(payload[..|payload| - missing])), []))
      else Decode(b).Err?
  {
    hide *;
    var missing := |Encode(m)| - |b|;
    if missing <= |OrEmpty(m.payload)| {
      CutInPayload(m, b, missing);
    } else {
      CutBeforePayload(m, b, missing);
    }
  }

  lemma {:induction false} SmallNumber(v: nat)
    requires v < 256
    ensures Int32Bytes(v) == UInt32Bytes(v) == [v, 0, 0, 0]
    ensures Int64Bytes(v) == [v, 0, 0, 0, 0, 0, 0, 0]
  {
    assert LittleEndian(0, 1) == [0] + LittleEndian(0, 0) == [0];
    assert LittleEndian(0, 2) == [0] + LittleEndian(0, 1) == [0, 0];
    assert LittleEndian(0, 3) == [0] + LittleEndian(0, 2) == [0, 0, 0];
    assert LittleEndian(0, 5) == [0, 0] + LittleEndian(0, 3);
    assert LittleEndian(0, 7) == [0, 0] + LittleEndian(0, 5);
    assert v / 256 == 0 && v % 256 == v;
  }

  lemma {:induction false} ShortString(x: byte)
    ensures StringBytes([x]) == [1, x]
  {
    assert SevenBit(1) == [1];
  }

  /** A small message byte by byte: type, id, creation time, session, SID, metadata, payload, with the
      numbers little-endian, each string behind its 7-bit length, each byte run behind its 32-bit one. */
  lemma {:induction false} ByteLayout(t: byte, i: byte, k: byte, n: byte, u: byte, a: byte, b: byte, p: byte)
    ensures Encode(Message(t, [i], k, n, Some([u]), Some([a, b]), Some([p]))) ==
      [t, 0, 0, 0, 1, i, k, 0, 0, 0, 0, 0, 0, 0, n, 0, 0, 0, 1, u] + [2, 0, 0, 0, a, b] + [1, 0, 0, 0, p]
  {
    hide Int32Bytes, Int64Bytes, UInt32Bytes, StringBytes;
    var m := Message(t, [i], k, n, Some([u]), Some([a, b]), Some([p]));
    SmallNumber(t);
    SmallNumber(k);
    SmallNumber(n);
    ShortString(i);
    ShortString(u);
    assert HeaderBytes(m) == [t, 0, 0, 0, 1, i, k, 0, 0, 0, 0, 0, 0, 0, n, 0, 0, 0, 1, u];
    RunLayout([a, b]);
    RunLayout([p]);
  }

  lemma {:induction false} RunLayout(run: NetBytes)
    requires |run| < 256
    ensures MetadataBytes(run) == PayloadBytes(run) == [|run|, 0, 0, 0] + run
  {
    SmallNumber(|run|);
  }

  /** A message that can be read otherwise is accepted exactly when its creation time is a moment from the
      year 1 to the year 9999: 3,652,059 days of 864,000,000,000 ticks. */
  lemma {:induction false} CreationTimeDecides(b: NetBytes)
    requires TakeHeader(b).Ok? && TakeMetadata(TakeHeader(b).value.1).Ok?
    requires TakePayload(TakeMetadata(TakeHeader(b).value.1).value.1).Ok?
    ensures Decode(b).Ok? <==> 0 <= TakeHeader(b).value.0.createdTicks < 3_652_059 * 864_000_000_000
  {
    TakesShrink(b);
  }
}
