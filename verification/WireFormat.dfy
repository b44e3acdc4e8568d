/** The bytes of the wire protocol written out: which text each message has, and what is accepted. */
module WireFormat {
  import opened Basics
  import opened PeerProtocol

  /** Four bytes, the first counting most, that spell `n`. */
  predicate Spells(w: Bytes, n: int) {
    |w| == 4 && n == ((w[0] as int * 256 + w[1] as int) * 256 + w[2] as int) * 256 + w[3] as int
  }

  lemma SpellsPacked(w: Bytes, n: int)
    ensures Spells(w, n) <==> FitsU32(n) && w == U32(n)
    ensures |w| == 4 ==> (Spells(w, n) <==> n == ReadU32(w))
  {
    if |w| == 4 {
      PackRead(w);
    }
    if FitsU32(n) {
      ReadPacked(n);
    }
  }

  /** The text of each message: a length of four bytes, a number for its kind, its fields in order. */
  predicate WireForm(m: Message, s: Bytes) {
    match m
    case KeepAlive => s == [0, 0, 0, 0]
    case Choke => s == [0, 0, 0, 1, 0]
    case Unchoke => s == [0, 0, 0, 1, 1]
    case Interested => s == [0, 0, 0, 1, 2]
    case NotInterested => s == [0, 0, 0, 1, 3]
    case Have(i) => |s| == 9 && s[..5] == [0, 0, 0, 5, 4] && Spells(s[5..], i)
    case Bitfield(bits) => |s| == 5 + |bits| && Spells(s[..4], 1 + |bits|) && s[4] == 5 && s[5..] == bits
    case Request(i, b, n) =>
      |s| == 17 && s[..5] == [0, 0, 0, 13, 6] && Spells(s[5..9], i) && Spells(s[9..13], b) && Spells(s[13..], n)
    case Piece(i, b, block) =>
      && |s| == 13 + |block| && Spells(s[..4], 9 + |block|) && s[4] == 7
      && Spells(s[5..9], i) && Spells(s[9..13], b) && s[13..] == block
    case Cancel(i, b, n) =>
      |s| == 17 && s[..5] == [0, 0, 0, 13, 8] && Spells(s[5..9], i) && Spells(s[9..13], b) && Spells(s[13..], n)
  }

  /** A frame is its length, its kind and its payload. */
  lemma FrameBytes(id: byte, payload: Bytes, s: Bytes)
    ensures Frame(id, payload) == Ok(s) <==>
              |s| == 5 + |payload| && Spells(s[..4], 1 + |payload|) && s[4] == id && s[5..] == payload
  {
    hide U32, Spells;
    var n := 1 + |payload|;
    var body := [id] + payload;
    if |s| == 5 + |payload| {
      SpellsPacked(s[..4], n);
      assert s == s[..4] + ([s[4]] + s[5..]);
      if Frame(id, payload) == Ok(s) {
        assert s[..4] == U32(n) && s[4..] == body;
        assert s[5..] == body[1..];
      }
    }
  }

  lemma SmallPrefix(s: Bytes, n: nat)
    requires n < 256
    ensures Spells(s, n) <==> s == [0, 0, 0, n]
  {
    SpellsPacked(s, n);
  }

  /** Five given bytes are a length below 256 and a kind. */
  lemma ShortFrame(id: byte, payload: Bytes, s: Bytes)
    requires |payload| < 255
    ensures Frame(id, payload) == Ok(s) <==>
              |s| == 5 + |payload| && s[..5] == [0, 0, 0, 1 + |payload|, id] && s[5..] == payload
  {
    hide Frame, Spells;
    FrameBytes(id, payload, s);
    if |s| == 5 + |payload| {
      SmallPrefix(s[..4], 1 + |payload|);
      assert s[..5] == s[..4] + [s[4]];
      assert s[..5][..4] == s[..4];
    }
  }

  lemma ThreeSpelled(p: Bytes, i: int, b: int, n: int)
    requires |p| == 12
    ensures Spells(p[..4], i) && Spells(p[4..8], b) && Spells(p[8..], n) <==>
              FitsU32(i) && FitsU32(b) && FitsU32(n) && p == U32(i) + U32(b) + U32(n)
  {
    hide U32, Spells;
    SpellsPacked(p[..4], i);
    SpellsPacked(p[4..8], b);
    SpellsPacked(p[8..], n);
    assert p == p[..4] + p[4..8] + p[8..];
    if FitsU32(i) && FitsU32(b) && FitsU32(n) {
      var q := U32(i) + U32(b) + U32(n);
      assert q[..4] == U32(i) && q[4..8] == U32(b) && q[8..] == U32(n);
    }
  }

  lemma TwoSpelled(p: Bytes, i: int, b: int, block: Bytes)
    requires |p| == 8 + |block|
    ensures Spells(p[..4], i) && Spells(p[4..8], b) && p[8..] == block <==>
              FitsU32(i) && FitsU32(b) && p == U32(i) + U32(b) + block
  {
    hide U32, Spells;
    SpellsPacked(p[..4], i);
    SpellsPacked(p[4..8], b);
    assert p == p[..4] + p[4..8] + p[8..];
    if FitsU32(i) && FitsU32(b) {
      var q := U32(i) + U32(b) + block;
      assert q[..4] == U32(i) && q[4..8] == U32(b) && q[8..] == block;
    }
  }

  lemma ThreeFieldsForm(id: byte, i: int, b: int, n: int, s: Bytes)
    ensures FitsU32(i) && FitsU32(b) && FitsU32(n) && Frame(id, U32(i) + U32(b) + U32(n)) == Ok(s) <==>
              |s| == 17 && s[..5] == [0, 0, 0, 13, id] && Spells(s[5..9], i) && Spells(s[9..13], b) && Spells(s[13..], n)
  {
    hide U32, Spells, Frame;
    if FitsU32(i) && FitsU32(b) && FitsU32(n) {
      ShortFrame(id, U32(i) + U32(b) + U32(n), s);
    }
    if |s| == 17 {
      var p := s[5..];
      assert p[..4] == s[5..9] && p[4..8] == s[9..13] && p[8..] == s[13..];
      ThreeSpelled(p, i, b, n);
    }
  }

  lemma PieceForm(i: int, b: int, block: Bytes, s: Bytes)
    ensures FitsU32(i) && FitsU32(b) && Frame(7, U32(i) + U32(b) + block) == Ok(s) <==> WireForm(Piece(i, b, block), s)
  {
    hide U32, Spells, Frame;
    if FitsU32(i) && FitsU32(b) {
      FrameBytes(7, U32(i) + U32(b) + block, s);
    }
    if |s| == 13 + |block| {
      var p := s[5..];
      assert p[..4] == s[5..9] && p[4..8] == s[9..13] && p[8..] == s[13..];
      TwoSpelled(p, i, b, block);
    }
  }

  lemma PlainForm(id: byte, s: Bytes)
    ensures Frame(id, []) == Ok(s) <==> s == [0, 0, 0, 1, id]
  {
    hide Frame;
    ShortFrame(id, [], s);
    if |s| == 5 {
      assert s[..5] == s;
    }
  }

  lemma HaveForm(i: int, s: Bytes)
    ensures FitsU32(i) && Frame(4, U32(i)) == Ok(s) <==> WireForm(Have(i), s)
  {
    hide U32, Spells, Frame;
    if FitsU32(i) {
      ShortFrame(4, U32(i), s);
    }
    if |s| == 9 {
      SpellsPacked(s[5..], i);
    }
  }

  /** A message has exactly one text, and no text at all exactly if a field or the length does not fit. */
  lemma EncodedBytes(m: Message, s: Bytes)
    ensures Encode(m) == Ok(s) <==> WireForm(m, s)
  {
    hide U32, Spells, Frame;
    match m
    case KeepAlive =>
    case Choke => PlainForm(0, s);
    case Unchoke => PlainForm(1, s);
    case Interested => PlainForm(2, s);
    case NotInterested => PlainForm(3, s);
    case Have(i) => HaveForm(i, s);
    case Bitfield(bits) => FrameBytes(5, bits, s);
    case Request(i, b, n) => ThreeFieldsForm(6, i, b, n, s);
    case Piece(i, b, block) => PieceForm(i, b, block, s);
    case Cancel(i, b, n) => ThreeFieldsForm(8, i, b, n, s);
  }

  /** What a kind and a payload mean. */
  predicate Says(id: byte, payload: Bytes, m: Message) {
    match m
    case KeepAlive => false
    case Choke => id == 0
    case Unchoke => id == 1
    case Interested => id == 2
    case NotInterested => id == 3
    case Have(i) => id == 4 && Spells(payload, i)
    case Bitfield(bits) => id == 5 && payload == bits
    case Request(i, b, n) =>
      id == 6 && |payload| == 12 && Spells(payload[..4], i) && Spells(payload[4..8], b) && Spells(payload[8..], n)
    case Piece(i, b, block) =>
      id == 7 && |payload| >= 8 && Spells(payload[..4], i) && Spells(payload[4..8], b) && payload[8..] == block
    case Cancel(i, b, n) =>
      id == 8 && |payload| == 12 && Spells(payload[..4], i) && Spells(payload[4..8], b) && Spells(payload[8..], n)
  }

  lemma DecodedBytes(id: byte, payload: Bytes, m: Message)
    ensures DecodeMessage(id, payload) == Ok(m) <==> Says(id, payload, m)
    ensures DecodeMessage(id, payload) == Err(UnknownMessageId) <==> id > 8
    ensures DecodeMessage(id, payload) == Err(BadPayloadLength) <==>
              (id == 4 && |payload| != 4) || ((id == 6 || id == 8) && |payload| != 12) || (id == 7 && |payload| < 8)
  {
    hide ReadU32, Spells;
    match m
    case Have(i) => SpellsPacked(payload, i);
    case Request(i, b, n) => FieldsSpelled(payload, i, b, n);
    case Cancel(i, b, n) => FieldsSpelled(payload, i, b, n);
    case Piece(i, b, block) =>
      if |payload| >= 8 {
        SpellsPacked(payload[..4], i);
        SpellsPacked(payload[4..8], b);
      }
    case _ =>
  }

  lemma FieldsSpelled(payload: Bytes, i: int, b: int, n: int)
    ensures |payload| == 12 ==>
              && (Spells(payload[..4], i) <==> i == ReadU32(payload[..4]))
              && (Spells(payload[4..8], b) <==> b == ReadU32(payload[4..8]))
              && (Spells(payload[8..], n) <==> n == ReadU32(payload[8..]))
  {
    hide ReadU32, Spells;
    if |payload| == 12 {
      SpellsPacked(payload[..4], i);
      SpellsPacked(payload[4..8], b);
      SpellsPacked(payload[8..], n);
    }
  }

  /** What is received, and from which bytes: the first four spell how many more make up the message. */
  lemma ReceivedBytes(s: Bytes, m: Message, used: nat)
    ensures Receive(s) == Ok(Received(m, used)) <==>
              && 4 <= used <= |s| && Spells(s[..4], used - 4)
              && if used == 4 then m == KeepAlive else Says(s[4], s[5..used], m)
    ensures Receive(s) == Err(ConnectionClosed) <==>
              |s| < 4 || exists n: nat :: Spells(s[..4], n) && |s| < 4 + n
  {
    hide ReadU32, Spells, DecodeMessage, Says;
    if |s| >= 4 {
      SpellsPacked(s[..4], used - 4);
      var length := ReadU32(s[..4]);
      SpellsPacked(s[..4], length);
      forall n: nat ensures Spells(s[..4], n) <==> n == length {
        SpellsPacked(s[..4], n);
      }
      if 0 < length && 4 + length <= |s| {
        DecodedBytes(s[4], s[5..4 + length], m);
        DecodeErrors(s[4], s[5..4 + length]);
      }
    }
  }

  lemma DecodeErrors(id: byte, payload: Bytes)
    ensures DecodeMessage(id, payload) != Err(ConnectionClosed)
  {}

  /** The handshake, position by position: 19, the name of the protocol, eight reserved bytes, the two ids. */
  lemma HandshakeBytes(infoHash: Bytes, peerId: Bytes, data: Bytes)
    ensures BuildHandshake(infoHash, peerId) == Ok(data) <==>
              && |data| == 68 && |infoHash| == 20 && |peerId| == 20
              && data[..20] == [19, 66, 105, 116, 84, 111, 114, 114, 101, 110, 116, 32, 112, 114, 111, 116, 111, 99, 111, 108]
              && (forall i :: 20 <= i < 28 ==> data[i] == 0)
              && data[28..48] == infoHash && data[48..] == peerId
  {
    var head := [19, 66, 105, 116, 84, 111, 114, 114, 101, 110, 116, 32, 112, 114, 111, 116, 111, 99, 111, 108];
    assert [|PROTOCOL_NAME|] + PROTOCOL_NAME == head;
    if |data| == 68 && |infoHash| == 20 && |peerId| == 20 {
      var built := head + Zeros(8) + infoHash + peerId;
      assert data == data[..20] + data[20..28] + data[28..48] + data[48..];
      assert built[..20] == head && built[28..48] == infoHash && built[48..] == peerId;
      if forall i :: 20 <= i < 28 ==> data[i] == 0 {
        assert data[20..28] == Zeros(8);
      }
      forall i | 20 <= i < 28 ensures built[i] == 0 {
        assert built[i] == Zeros(8)[i - 20];
      }
    }
  }

  /** Of a handshake only its first 20 bytes are checked, and only its first 68 are read. */
  lemma HandshakeAccepted(data: Bytes, ids: Handshake)
    ensures ParseHandshake(data) == Ok(ids) <==>
              && |data| >= 68
              && data[..20] == [19, 66, 105, 116, 84, 111, 114, 114, 101, 110, 116, 32, 112, 114, 111, 116, 111, 99, 111, 108]
              && ids.infoHash == data[28..48] && ids.peerId == data[48..68]
  {
    var head := [19, 66, 105, 116, 84, 111, 114, 114, 101, 110, 116, 32, 112, 114, 111, 116, 111, 99, 111, 108];
    assert head == [19] + PROTOCOL_NAME;
    if |data| >= 68 {
      assert data[..20] == [data[0]] + data[1..20];
      assert data[..20] == head ==> data[..20][1..] == head[1..];
    }
  }
}
