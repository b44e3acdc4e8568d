/**
 The peer wire protocol of BEP 3: message encodings, the length-prefixed framing of the stream,
 and the handshake.
 */
module PeerProtocol {
  import opened Basics

  const KEEP_ALIVE_BYTES: Bytes := [0, 0, 0, 0]
  const PROTOCOL_NAME: Bytes :=
    [66, 105, 116, 84, 111, 114, 114, 101, 110, 116, 32, 112, 114, 111, 116, 111, 99, 111, 108]
  const HANDSHAKE_LEN: nat := 68

  datatype Message =
    | KeepAlive
    | Choke
    | Unchoke
    | Interested
    | NotInterested
    | Have(pieceIndex: int)
    | Bitfield(bitfield: Bytes)
    | Request(index: int, begin: int, length: int)
    | Piece(index: int, begin: int, block: Bytes)
    | Cancel(index: int, begin: int, length: int)

  datatype PeerError =
    | NotConnected
    | ConnectionClosed
    | UnknownMessageId
    | BadPayloadLength
    | FieldTooLarge
    | HandshakeTooShort
    | ProtocolMismatch
    | WrongIdLength

  // ---------------------------------------------------------------------------
  // 32-bit big-endian fields
  // ---------------------------------------------------------------------------

  const TWO_32: nat := 0x1_0000_0000

  predicate FitsU32(n: int) {
    0 <= n < TWO_32
  }

  /** `struct.pack("!I", n)`. */
  function U32(n: int): (b: Bytes)
    requires FitsU32(n)
    ensures |b| == 4
  {
    [n / 0x100_0000, n / 0x1_0000 % 256, n / 256 % 256, n % 256]
  }

  /** `struct.unpack("!I", b)`. */
  function ReadU32(b: Bytes): (n: nat)
    requires |b| == 4
    ensures FitsU32(n)
  {
    b[0] as int * 0x100_0000 + b[1] as int * 0x1_0000 + b[2] as int * 256 + b[3]
  }

  lemma ReadPacked(n: int)
    requires FitsU32(n)
    ensures ReadU32(U32(n)) == n
  {
    var a := n / 256;
    var b := a / 256;
    assert n == a * 256 + n % 256;
    assert n / 0x1_0000 == b && a == b * 256 + a % 256;
    assert n / 0x100_0000 == b / 256 && b == b / 256 * 256 + b % 256;
  }

  lemma PackRead(b: Bytes)
    requires |b| == 4
    ensures U32(ReadU32(b)) == b
  {
    var n := ReadU32(b);
    assert n / 256 == b[0] as int * 0x1_0000 + b[1] as int * 256 + b[2];
    assert n / 0x1_0000 == b[0] as int * 256 + b[1];
    assert n / 0x100_0000 == b[0];
  }

  // ---------------------------------------------------------------------------
  // Encoding
  // ---------------------------------------------------------------------------

  function Frame(id: byte, payload: Bytes): Result<Bytes, PeerError> {
    var body := [id] + payload;
    if FitsU32(|body|) then Ok(U32(|body|) + body) else Err(FieldTooLarge)
  }

  /** `Message.encode`; `struct.pack` raises on a field outside 32 bits. */
  function Encode(m: Message): Result<Bytes, PeerError> {
    match m
    case KeepAlive => Ok(KEEP_ALIVE_BYTES)
    case Choke => Frame(0, [])
    case Unchoke => Frame(1, [])
    case Interested => Frame(2, [])
    case NotInterested => Frame(3, [])
    case Have(i) => if FitsU32(i) then Frame(4, U32(i)) else Err(FieldTooLarge)
    case Bitfield(bits) => Frame(5, bits)
    case Request(i, b, n) =>
      if FitsU32(i) && FitsU32(b) && FitsU32(n) then Frame(6, U32(i) + U32(b) + U32(n)) else Err(FieldTooLarge)
    case Piece(i, b, block) =>
      if FitsU32(i) && FitsU32(b) then Frame(7, U32(i) + U32(b) + block) else Err(FieldTooLarge)
    case Cancel(i, b, n) =>
      if FitsU32(i) && FitsU32(b) && FitsU32(n) then Frame(8, U32(i) + U32(b) + U32(n)) else Err(FieldTooLarge)
  }

  // ---------------------------------------------------------------------------
  // Decoding
  // ---------------------------------------------------------------------------

  function DecodeMessage(id: byte, payload: Bytes): Result<Message, PeerError> {
    match id
    case 0 => Ok(Choke)
    case 1 => Ok(Unchoke)
    case 2 => Ok(Interested)
    case 3 => Ok(NotInterested)
    case 4 => if |payload| != 4 then Err(BadPayloadLength) else Ok(Have(ReadU32(payload)))
    case 5 => Ok(Bitfield(payload))
    case 6 =>
      if |payload| != 12 then Err(BadPayloadLength)
      else Ok(Request(ReadU32(payload[..4]), ReadU32(payload[4..8]), ReadU32(payload[8..])))
    case 7 =>
      if |payload| < 8 then Err(BadPayloadLength)
      else Ok(Piece(ReadU32(payload[..4]), ReadU32(payload[4..8]), payload[8..]))
    case 8 =>
      if |payload| != 12 then Err(BadPayloadLength)
      else Ok(Cancel(ReadU32(payload[..4]), ReadU32(payload[4..8]), ReadU32(payload[8..])))
    case _ => Err(UnknownMessageId)
  }

  datatype Received = Received(message: Message, used: nat)

  /** One `receive_message` on the bytes that are still to come before the peer closes or falls silent. */
  function Receive(s: Bytes): (r: Result<Received, PeerError>)
    ensures r.Ok? ==> 4 <= r.value.used <= |s|
  {
    if |s| < 4 then
      Err(ConnectionClosed)
    else
      var length := ReadU32(s[..4]);
      if length == 0 then
        Ok(Received(KeepAlive, 4))
      else if |s| < 4 + length then
        Err(ConnectionClosed)
      else
        match DecodeMessage(s[4], s[5..4 + length])
        case Err(e) => Err(e)
        case Ok(m) => Ok(Received(m, 4 + length))
  }

  // ---------------------------------------------------------------------------
  // One message
  // ---------------------------------------------------------------------------

  lemma ReceiveFrame(id: byte, payload: Bytes, rest: Bytes)
    requires Frame(id, payload).Ok?
    ensures var s := Frame(id, payload).value + rest;
            Receive(s) == match DecodeMessage(id, payload)
                          case Err(e) => Err(e)
                          case Ok(m) => Ok(Received(m, 5 + |payload|))
  {
    hide DecodeMessage, U32, ReadU32;
    var n := 1 + |payload|;
    var s := Frame(id, payload).value + rest;
    assert s[..4] == U32(n);
    ReadPacked(n);
    assert s[4] == id && s[5..4 + n] == payload;
  }

  lemma ThreeFields(i: int, b: int, n: int)
    requires FitsU32(i) && FitsU32(b) && FitsU32(n)
    ensures var p := U32(i) + U32(b) + U32(n);
            |p| == 12 && ReadU32(p[..4]) == i && ReadU32(p[4..8]) == b && ReadU32(p[8..]) == n
  {
    hide U32, ReadU32;
    var p := U32(i) + U32(b) + U32(n);
    assert p[..4] == U32(i) && p[4..8] == U32(b) && p[8..] == U32(n);
    ReadPacked(i);
    ReadPacked(b);
    ReadPacked(n);
  }

  lemma TwoFields(i: int, b: int, block: Bytes)
    requires FitsU32(i) && FitsU32(b)
    ensures var p := U32(i) + U32(b) + block;
            |p| >= 8 && ReadU32(p[..4]) == i && ReadU32(p[4..8]) == b && p[8..] == block
  {
    hide U32, ReadU32;
    var p := U32(i) + U32(b) + block;
    assert p[..4] == U32(i) && p[4..8] == U32(b) && p[8..] == block;
    ReadPacked(i);
    ReadPacked(b);
  }

  /** Whatever follows an encoded message, the framing returns it and stops at its end. */
  lemma ReceiveEncoded(m: Message, rest: Bytes)
    requires Encode(m).Ok?
    ensures Receive(Encode(m).value + rest) == Ok(Received(m, |Encode(m).value|))
  {
    hide U32, ReadU32, Receive;
    match m
    case KeepAlive => ReceiveKeepAlive(rest);
    case Choke => ReceiveFrame(0, [], rest);
    case Unchoke => ReceiveFrame(1, [], rest);
    case Interested => ReceiveFrame(2, [], rest);
    case NotInterested => ReceiveFrame(3, [], rest);
    case Have(i) =>
      ReceiveFrame(4, U32(i), rest);
      ReadPacked(i);
    case Bitfield(bits) => ReceiveFrame(5, bits, rest);
    case Request(i, b, n) =>
      ReceiveFrame(6, U32(i) + U32(b) + U32(n), rest);
      ThreeFields(i, b, n);
    case Piece(i, b, block) =>
      ReceiveFrame(7, U32(i) + U32(b) + block, rest);
      TwoFields(i, b, block);
    case Cancel(i, b, n) =>
      ReceiveFrame(8, U32(i) + U32(b) + U32(n), rest);
      ThreeFields(i, b, n);
  }

  lemma ReceiveKeepAlive(rest: Bytes)
    ensures Receive(KEEP_ALIVE_BYTES + rest) == Ok(Received(KeepAlive, 4))
  {
    assert (KEEP_ALIVE_BYTES + rest)[..4] == KEEP_ALIVE_BYTES;
  }

  /** The decoder ignores a payload after choke, unchoke, interested and not-interested. */
  predicate StrayPayload(s: Bytes) {
    |s| >= 5 && s[4] <= 3 && ReadU32(s[..4]) > 1
  }

  /**
   The other direction: a received message re-encodes to the very bytes it was read from, except
   when a message without fields came with a payload.
   */
  lemma EncodeReceived(s: Bytes)
    requires Receive(s).Ok?
    ensures var f := Receive(s).value;
            Encode(f.message).Ok? && (Encode(f.message).value == s[..f.used] <==> !StrayPayload(s))
  {
    hide U32, ReadU32;
    var f := Receive(s).value;
    PackRead(s[..4]);
    if f.used == 4 {
      ReadPacked(0);
      ZeroLength(s[..4]);
    } else {
      var payload := s[5..f.used];
      assert s[..f.used] == s[..4] + ([s[4]] + payload);
      if s[4] <= 3 {
        assert StrayPayload(s) <==> |payload| > 0;
        assert Encode(f.message).value == U32(1) + [s[4]];
      } else if s[4] == 4 {
        PackRead(payload);
      } else if s[4] == 6 || s[4] == 8 {
        PackRead(payload[..4]);
        PackRead(payload[4..8]);
        PackRead(payload[8..]);
        assert payload == payload[..4] + payload[4..8] + payload[8..];
      } else if s[4] == 7 {
        PackRead(payload[..4]);
        PackRead(payload[4..8]);
        assert payload == payload[..4] + payload[4..8] + payload[8..];
      }
    }
  }

  lemma ZeroLength(b: Bytes)
    requires |b| == 4 && ReadU32(b) == 0
    ensures b == KEEP_ALIVE_BYTES
  {}

  // ---------------------------------------------------------------------------
  // The stream
  // ---------------------------------------------------------------------------

  predicate Encodable(ms: seq<Message>) {
    forall i :: 0 <= i < |ms| ==> Encode(ms[i]).Ok?
  }

  function EncodeAll(ms: seq<Message>): Bytes
    requires Encodable(ms)
  {
    if ms == [] then [] else Encode(ms[0]).value + EncodeAll(ms[1..])
  }

  datatype Frames = Frames(messages: seq<Message>, used: nat)

  /** `n` calls of `receive_message`, stopping at the first error. */
  function ReceiveMany(s: Bytes, n: nat): (r: Result<Frames, PeerError>)
    ensures r.Ok? ==> |r.value.messages| == n && r.value.used <= |s|
  {
    if n == 0 then
      Ok(Frames([], 0))
    else
      match Receive(s)
      case Err(e) => Err(e)
      case Ok(f) =>
        match ReceiveMany(s[f.used..], n - 1)
        case Err(e) => Err(e)
        case Ok(fs) => Ok(Frames([f.message] + fs.messages, f.used + fs.used))
  }

  /** The stream round trip: any sequence of messages, whatever bytes follow it. */
  lemma {:induction false} StreamRoundTrip(ms: seq<Message>, rest: Bytes)
    requires Encodable(ms)
    ensures ReceiveMany(EncodeAll(ms) + rest, |ms|) == Ok(Frames(ms, |EncodeAll(ms)|))
  {
    hide Encode, Receive;
    if ms != [] {
      var first := Encode(ms[0]).value;
      var tail := EncodeAll(ms[1..]) + rest;
      assert EncodeAll(ms) + rest == first + tail;
      ReceiveEncoded(ms[0], tail);
      assert (first + tail)[|first|..] == tail;
      StreamRoundTrip(ms[1..], rest);
      assert ms == [ms[0]] + ms[1..];
    }
  }

  // ---------------------------------------------------------------------------
  // A receive that is cancelled by a time-out
  // ---------------------------------------------------------------------------

  /** What has come is no whole frame yet. */
  predicate Incomplete(s: Bytes) {
    |s| < 4 || |s| < 4 + ReadU32(s[..4])
  }

  /** `readexactly` takes its bytes only when all are there: the length prefix has been taken, the body has not. */
  function Consumed(s: Bytes): nat {
    if |s| < 4 then 0 else 4
  }

  /** The position is where one of the messages starts, or where they end. */
  ghost predicate AtFrame(ms: seq<Message>, position: nat)
    requires Encodable(ms)
  {
    exists k: nat :: k <= |ms| && position == |EncodeAll(ms[..k])|
  }

  lemma {:induction false} EncodeAllSplit(ms: seq<Message>, k: nat)
    requires Encodable(ms) && k <= |ms|
    ensures EncodeAll(ms) == EncodeAll(ms[..k]) + EncodeAll(ms[k..])
  {
    hide Encode;
    if k == 0 {
      assert ms[k..] == ms && ms[..k] == [];
    } else {
      EncodeAllSplit(ms[1..], k - 1);
      assert ms[1..][..k - 1] == ms[..k][1..] && ms[1..][k - 1..] == ms[k..];
      assert ms[..k][0] == ms[0];
    }
  }

  /** Messages before `k` end where message `k` starts, and later ones start no earlier than it ends. */
  lemma FrameBounds(ms: seq<Message>, k: nat, j: nat)
    requires Encodable(ms) && k < |ms| && j <= |ms|
    ensures j <= k ==> |EncodeAll(ms[..j])| <= |EncodeAll(ms[..k])|
    ensures k < j ==> |EncodeAll(ms[..k])| + |Encode(ms[k]).value| <= |EncodeAll(ms[..j])|
  {
    hide Encode;
    if j <= k {
      EncodeAllSplit(ms[..k], j);
      assert ms[..k][..j] == ms[..j];
    } else {
      EncodeAllSplit(ms[..j], k);
      assert ms[..j][..k] == ms[..k] && ms[..j][k..][0] == ms[k];
    }
  }

  lemma FrameLength(m: Message)
    requires Encode(m).Ok?
    ensures |Encode(m).value| >= 4 && ReadU32(Encode(m).value[..4]) + 4 == |Encode(m).value|
  {
    ReceiveEncoded(m, []);
    assert Encode(m).value + [] == Encode(m).value;
  }

  /**
   A receive cancelled while message `k` is on its way leaves the stream in step exactly when its length
   prefix has not come in full; then nothing is lost.
   */
  lemma CancelledReceive(ms: seq<Message>, k: nat, rest: Bytes, arrived: nat)
    requires Encodable(ms) && k < |ms|
    requires var stream, start := EncodeAll(ms) + rest, |EncodeAll(ms[..k])|;
             start <= arrived <= |stream| && Incomplete(stream[start..arrived])
    ensures var stream, start := EncodeAll(ms) + rest, |EncodeAll(ms[..k])|;
            && (AtFrame(ms, start + Consumed(stream[start..arrived])) <==> arrived < start + 4)
            && (arrived < start + 4 ==>
                  ReceiveMany(stream[start + Consumed(stream[start..arrived])..], |ms| - k)
                  == Ok(Frames(ms[k..], |EncodeAll(ms[k..])|)))
  {
    hide Encode, EncodeAll, ReadU32, ReceiveMany, Receive;
    var stream, start := EncodeAll(ms) + rest, |EncodeAll(ms[..k])|;
    EncodeAllSplit(ms, k);
    assert stream[start..] == EncodeAll(ms[k..]) + rest;
    if arrived < start + 4 {
      assert AtFrame(ms, start);
      StreamRoundTrip(ms[k..], rest);
    } else {
      FirstFrame(ms[k..], rest);
      assert ms[k..][0] == ms[k];
      assert stream[start..arrived][..4] == stream[start..][..4];
      forall j: nat | j <= |ms| ensures |EncodeAll(ms[..j])| != start + 4 {
        FrameBounds(ms, k, j);
      }
    }
  }

  /** The stream starts with the frame of the first message. */
  lemma FirstFrame(ms: seq<Message>, rest: Bytes)
    requires Encodable(ms) && ms != []
    ensures |EncodeAll(ms) + rest| >= 4 && 4 + ReadU32((EncodeAll(ms) + rest)[..4]) == |Encode(ms[0]).value|
  {
    hide Encode, ReadU32;
    FrameLength(ms[0]);
    assert (EncodeAll(ms) + rest)[..4] == Encode(ms[0]).value[..4];
  }

  /**
   Out of step, the start of a body is read as a length: a message with fields, or a bitfield of three
   bytes or more, makes the next receive wait for more than 64 MB.
   */
  lemma LostPrefixStalls(m: Message, rest: Bytes)
    requires Encode(m).Ok? && |Encode(m).value| >= 8
    ensures ReadU32(Encode(m).value[4..8]) >= 0x400_0000
    ensures |rest| < 0x400_0000 - |Encode(m).value| ==> Receive(Encode(m).value[4..] + rest) == Err(ConnectionClosed)
  {
    var body := Encode(m).value[4..];
    assert body[..4] == Encode(m).value[4..8] && body[0] >= 4;
    assert (body + rest)[..4] == body[..4];
  }

  // ---------------------------------------------------------------------------
  // Handshake
  // ---------------------------------------------------------------------------

  function BuildHandshake(infoHash: Bytes, peerId: Bytes): Result<Bytes, PeerError> {
    if |infoHash| != 20 || |peerId| != 20 then
      Err(WrongIdLength)
    else
      Ok([|PROTOCOL_NAME|] + PROTOCOL_NAME + Zeros(8) + infoHash + peerId)
  }

  datatype Handshake = Handshake(infoHash: Bytes, peerId: Bytes)

  function ParseHandshake(data: Bytes): Result<Handshake, PeerError> {
    if |data| < HANDSHAKE_LEN then Err(HandshakeTooShort)
    else if data[0] != |PROTOCOL_NAME| then Err(ProtocolMismatch)
    else if data[1..1 + data[0]] != PROTOCOL_NAME then Err(ProtocolMismatch)
    else Ok(Handshake(data[28..48], data[48..68]))
  }

  /** A built handshake is 68 bytes and parses to its two ids; the reserved bytes may be anything. */
  lemma HandshakeRoundTrip(infoHash: Bytes, peerId: Bytes, reserved: Bytes, rest: Bytes)
    requires |infoHash| == 20 && |peerId| == 20 && |reserved| == 8
    ensures BuildHandshake(infoHash, peerId).Ok? && |BuildHandshake(infoHash, peerId).value| == HANDSHAKE_LEN
    ensures var data := BuildHandshake(infoHash, peerId).value;
            ParseHandshake(data[..20] + reserved + data[28..] + rest) == Ok(Handshake(infoHash, peerId))
  {
    var built := BuildHandshake(infoHash, peerId).value;
    var data := built[..20] + reserved + built[28..] + rest;
    assert built[28..] == infoHash + peerId;
    assert built[..20] == [19] + PROTOCOL_NAME;
    assert data[1..20] == PROTOCOL_NAME;
    assert data[28..48] == infoHash && data[48..68] == peerId;
  }

  // ---------------------------------------------------------------------------
  // One end of a connection
  // ---------------------------------------------------------------------------

  class PeerConnection {
    /** Everything the peer sends before it closes or falls silent, and how far it has been read. */
    const incoming: Bytes
    var position: nat
    /** Everything written to the socket. */
    var outgoing: Bytes
    var connected: bool
    var amChoking: bool
    var amInterested: bool
    var peerChoking: bool
    var peerInterested: bool

    constructor (incoming: Bytes)
      ensures this.incoming == incoming && position == 0 && outgoing == [] && connected
      ensures amChoking && !amInterested && peerChoking && !peerInterested
    {
      this.incoming := incoming;
      position, outgoing, connected := 0, [], true;
      amChoking, amInterested, peerChoking, peerInterested := true, false, true, false;
    }

    method SendMessage(m: Message) returns (r: Result<(), PeerError>)
      modifies this`outgoing, this`amChoking, this`amInterested
      ensures r.Ok? <==> connected && Encode(m).Ok?
      ensures outgoing == old(outgoing) + if r.Ok? then Encode(m).value else []
      ensures amChoking == if r.Ok? && m.Choke? then true else if r.Ok? && m.Unchoke? then false else old(amChoking)
      ensures amInterested == if r.Ok? && m.Interested? then true else if r.Ok? && m.NotInterested? then false else old(amInterested)
    {
      if !connected {
        return Err(NotConnected);
      }
      var data := Encode(m);
      if data.Err? {
        return Err(data.error);
      }
      outgoing := outgoing + data.value;
      match m {
        case Choke => amChoking := true;
        case Unchoke => amChoking := false;
        case Interested => amInterested := true;
        case NotInterested => amInterested := false;
        case _ =>
      }
      r := Ok(());
    }

    method ReceiveMessage() returns (r: Result<Message, PeerError>)
      requires position <= |incoming|
      modifies this`position, this`peerChoking, this`peerInterested
      ensures !connected ==> r == Err(NotConnected) && position == old(position)
      ensures connected ==>
        match Receive(incoming[old(position)..])
        case Err(e) => r == Err(e)
        case Ok(f) => r == Ok(f.message) && position == old(position) + f.used
      ensures position <= |incoming|
      ensures peerChoking == if r == Ok(Choke) then true else if r == Ok(Unchoke) then false else old(peerChoking)
      ensures peerInterested == if r == Ok(Interested) then true else if r == Ok(NotInterested) then false else old(peerInterested)
    {
      hide ReadU32, DecodeMessage;
      if !connected {
        return Err(NotConnected);
      }
      ghost var rest := incoming[position..];
      if position + 4 > |incoming| {
        return Err(ConnectionClosed);
      }
      var length := ReadU32(incoming[position..position + 4]);
      assert incoming[position..position + 4] == rest[..4];
      position := position + 4;
      if length == 0 {
        return Ok(KeepAlive);
      }
      if position + length > |incoming| {
        return Err(ConnectionClosed);
      }
      var body := incoming[position..position + length];
      position := position + length;
      assert body[0] == rest[4] && body[1..] == rest[5..4 + length];
      r := DecodeMessage(body[0], body[1..]);
      if r.Err? {
        return;
      }
      match r.value {
        case Choke => peerChoking := true;
        case Unchoke => peerChoking := false;
        case Interested => peerInterested := true;
        case NotInterested => peerInterested := false;
        case _ =>
      }
    }

    /** The receive is cancelled by the caller's time-out when this much of the stream has come. */
    method CancelReceive(arrived: nat)
      requires position <= arrived <= |incoming| && Incomplete(incoming[position..arrived])
      modifies this`position
      ensures position == old(position) + Consumed(incoming[old(position)..arrived])
    {
      if position + 4 <= arrived {
        position := position + 4;
      }
    }
  }
}
