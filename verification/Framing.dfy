// The frames of rpc/msg.go: a ten byte header, then the possibly encrypted body.
module Framing {
  import opened Arith
  import opened Cipher

  const LEN_SIZE := 2
  const ID_SIZE := 2
  const SEQ_SIZE := 4
  const FLAG_SIZE := 2
  const HEADER := 10

  const HAND_SHAKE_NTF := 1006
  const HAND_SHAKE := 0
  const PING_ACK := 1001

  const U16 := 0x1_0000
  const U32 := 0x1_0000_0000

  // ---- numbers, big endian ---------------------------------------------------------

  function Put16(x: nat): (r: Bytes)
    ensures |r| == 2
  {
    [(x / 256 % 256) as Byte, (x % 256) as Byte]
  }

  function Put32(x: nat): (r: Bytes)
    ensures |r| == 4
  {
    Put16(x / U16) + Put16(x % U16)
  }

  function Get16(b: Bytes): (x: nat)
    requires |b| == 2
    ensures x < U16
  {
    b[0] as nat * 256 + b[1] as nat
  }

  function Get32(b: Bytes): (x: nat)
    requires |b| == 4
    ensures x < U32
  {
    Get16(b[..2]) * U16 + Get16(b[2..])
  }

  lemma Get16Put16(x: nat)
    ensures Get16(Put16(x)) == x % U16
  {
    assert x == 256 * (x / 256) + x % 256;
    var h := x / 256;
    assert h == 256 * (h / 256) + h % 256;
    DivModUnique(x, h / 256, 256 * (h % 256) + x % 256, U16);
  }

  lemma Get32Put32(x: nat)
    requires x < U32
    ensures Get32(Put32(x)) == x
  {
    Get16Put16(x / U16);
    Get16Put16(x % U16);
    var p := Put32(x);
    assert p[..2] == Put16(x / U16) && p[2..] == Put16(x % U16);
    DivModUnique(x / U16, 0, x / U16, U16);
    DivModUnique(x % U16, 0, x % U16, U16);
  }

  // ---- writing -----------------------------------------------------------------------

  function Header(length: nat, id: nat, seqId: nat, flag: nat): (r: Bytes)
    ensures |r| == HEADER
  {
    Put16(length) + Put16(id) + Put32(seqId) + Put16(flag)
  }

  function Frame(id: nat, seqId: nat, flag: nat, body: Bytes): (r: Bytes)
    ensures |r| == HEADER + |body|
  {
    Header(|body|, id, seqId, flag) + body
  }

  // binary.BigEndian.PutUint16
  method PutUint16(data: array<Byte>, at: nat, x: nat)
    requires at + 2 <= data.Length
    modifies data
    ensures data[..] == old(data[..at]) + Put16(x) + old(data[at + 2..])
  {
    data[at] := (x / 256 % 256) as Byte;
    data[at + 1] := (x % 256) as Byte;
  }

  method PutUint32(data: array<Byte>, at: nat, x: nat)
    requires at + 4 <= data.Length
    modifies data
    ensures data[..] == old(data[..at]) + Put32(x) + old(data[at + 4..])
  {
    PutUint16(data, at, x / U16);
    PutUint16(data, at + 2, x % U16);
  }

  method FillHeader(data: array<Byte>, length: nat, msgId: nat, seqId: nat, cryptType: nat)
    requires data.Length >= HEADER
    modifies data
    ensures data[..HEADER] == Header(length, msgId, seqId, cryptType)
  {
    hide Put16, Put32;
    PutUint16(data, 0, length);
    assert data[..2] == Put16(length);
    PutUint16(data, LEN_SIZE, msgId);
    assert data[..4] == Put16(length) + Put16(msgId);
    PutUint32(data, LEN_SIZE + ID_SIZE, seqId);
    assert data[..8] == Put16(length) + Put16(msgId) + Put32(seqId);
    PutUint16(data, LEN_SIZE + ID_SIZE + SEQ_SIZE, cryptType);
  }

  // The buffer SendMessage hands to the writer. The length field keeps 16 bits.
  method FillFrame(msgId: nat, seqId: nat, cryptType: nat, msgData: Bytes) returns (data: array<Byte>)
    ensures fresh(data) && data[..] == Frame(msgId, seqId, cryptType, msgData)
  {
    data := new Byte[LEN_SIZE + ID_SIZE + SEQ_SIZE + FLAG_SIZE + |msgData|];
    FillHeader(data, |msgData|, msgId, seqId, cryptType);
    ghost var head := data[..HEADER];
    forall i | 0 <= i < |msgData| {
      data[HEADER + i] := msgData[i];
    }
    assert data[..HEADER] == head && data[HEADER..] == msgData;
    assert data[..] == data[..HEADER] + data[HEADER..];
  }

  // ---- reading -----------------------------------------------------------------------

  datatype Package = Package(id: nat, seqId: nat, flag: nat, body: Bytes)

  // What RecvPackageData makes of a stream: the package and the stream after it, or the
  // end of the stream.
  datatype Received = Got(package: Package, rest: Bytes) | Ended

  // A length above the 16 low bits of the limit leaves the body in the stream, with no
  // error.
  function Receive(stream: Bytes, maxMsgLen: int): (r: Received)
    ensures r.Got? ==> |r.rest| < |stream|
  {
    if |stream| < HEADER then Ended
    else
      var length := Get16(stream[..2]);
      var id, seqId, flag := Get16(stream[2..4]), Get32(stream[4..8]), Get16(stream[8..10]);
      if length > 0 && length > maxMsgLen % U16 then Got(Package(id, seqId, flag, []), stream[HEADER..])
      else if |stream| < HEADER + length then Ended
      else Got(Package(id, seqId, flag, stream[HEADER..HEADER + length]), stream[HEADER + length..])
  }

  lemma FrameParts(id: nat, seqId: nat, flag: nat, body: Bytes, rest: Bytes)
    ensures var s := Frame(id, seqId, flag, body) + rest;
            && |s| >= HEADER
            && s[..2] == Put16(|body|) && s[2..4] == Put16(id) && s[4..8] == Put32(seqId) && s[8..10] == Put16(flag)
            && s[HEADER..] == body + rest
  {
  }

  // A frame is read back whole, with the stream left right behind it, if and only if its
  // body fits the length field and the receiver's limit.
  lemma ReceiveExactly(id: nat, seqId: nat, flag: nat, body: Bytes, rest: Bytes, maxMsgLen: int)
    requires id < U16 && seqId < U32 && flag < U16
    ensures Receive(Frame(id, seqId, flag, body) + rest, maxMsgLen) == Got(Package(id, seqId, flag, body), rest)
       <==> |body| < U16 && (|body| == 0 || |body| <= maxMsgLen % U16)
  {
    var s := Frame(id, seqId, flag, body) + rest;
    FrameParts(id, seqId, flag, body, rest);
    Get16Put16(|body|);
    Get16Put16(id);
    Get32Put32(seqId);
    Get16Put16(flag);
    DivModUnique(id, 0, id, U16);
    DivModUnique(flag, 0, flag, U16);
    var length := Get16(s[..2]);
    if |body| < U16 {
      DivModUnique(|body|, 0, |body|, U16);
      assert s[HEADER..HEADER + length] == (body + rest)[..length] == body;
      assert s[HEADER + length..] == (body + rest)[length..] == rest;
    }
  }

  // The bytes of a frame as numbers, most significant byte first.
  lemma FrameBytes(id: nat, seqId: nat, flag: nat, body: Bytes)
    requires seqId < U32
    ensures var f := Frame(id, seqId, flag, body);
            && |f| == 10 + |body| && f[10..] == body
            && f[0] as nat * 256 + f[1] as nat == |body| % 65536
            && f[2] as nat * 256 + f[3] as nat == id % 65536
            && f[4] as nat * 16777216 + f[5] as nat * 65536 + f[6] as nat * 256 + f[7] as nat == seqId
            && f[8] as nat * 256 + f[9] as nat == flag % 65536
  {
    FrameParts(id, seqId, flag, body, []);
    var f := Frame(id, seqId, flag, body);
    assert f + [] == f && body + [] == body;
    Get16Put16(|body|);
    Get16Put16(id);
    Get32Put32(seqId);
    Get16Put16(flag);
    assert Get16(f[..2]) == f[0] as nat * 256 + f[1] as nat;
    assert Get16(f[2..4]) == f[2] as nat * 256 + f[3] as nat;
    assert Get16(f[4..8][..2]) == f[4] as nat * 256 + f[5] as nat;
    assert Get16(f[4..8][2..]) == f[6] as nat * 256 + f[7] as nat;
    assert Get16(f[8..10]) == f[8] as nat * 256 + f[9] as nat;
  }

  // A frame that fits and is cut off anywhere is no package.
  lemma CutFrameEnds(id: nat, seqId: nat, flag: nat, body: Bytes, maxMsgLen: int, k: nat)
    requires |body| < U16 && (|body| == 0 || |body| <= maxMsgLen % U16) && k < 10 + |body|
    ensures Receive(Frame(id, seqId, flag, body)[..k], maxMsgLen).Ended?
  {
    var f := Frame(id, seqId, flag, body);
    FrameParts(id, seqId, flag, body, []);
    assert f + [] == f;
    if k >= HEADER {
      assert f[..k][..2] == f[..2];
      Get16Put16(|body|);
      DivModUnique(|body|, 0, |body|, U16);
    }
  }
}
