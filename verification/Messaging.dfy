// Sending and receiving whole messages: rpc/msg.go over util/ioutil.go.
module Messaging {
  import opened Arith
  import opened Cipher
  import opened Framing

  datatype RsaKey = PrivateClientKey | PrivateServerKey | PrivateKey

  datatype Error = Crypto(failure: Failure) | Rsa | NotRegistered | BadMessage | StreamEnded | SinkFailed

  // An error is returned to the caller; a panic leaves every function up to a recover.
  datatype Outcome<T> = Done(value: T) | Failed(error: Error) | Panicked

  datatype Option<T> = Some(value: T) | None

  // A decoded message is identified with its id and its marshalled bytes.
  datatype Message = Message(id: nat, data: Bytes)

  datatype Delivery = Delivery(message: Message, seqId: nat)

  // What the two peers share: the ciphers, which private keys hold a PEM block, which ids are
  // registered, and which bytes unmarshal for an id.
  datatype Env = Env(aes: Aes, rsaEncrypt: Bytes -> Option<Bytes>, rsaDecrypt: (RsaKey, Bytes) -> Option<Bytes>,
                     pem: RsaKey -> bool, registered: set<nat>, parses: (nat, Bytes) -> bool)

  ghost predicate Sound(env: Env) {
    && AesPair(env.aes) && env.pem(PrivateClientKey)
    && forall b: Bytes :: env.rsaEncrypt(b).Some? ==> env.rsaDecrypt(PrivateClientKey, env.rsaEncrypt(b).value) == Some(b)
  }

  // The keys of the package: that of the server is the empty string.
  predicate PackageKeys(env: Env) {
    env.pem(PrivateClientKey) && env.pem(PrivateKey) && !env.pem(PrivateServerKey)
  }

  // A packet passed on as it is, or a typed message with its marshalled bytes. `Malformed` is a
  // nil packet, or a message handed over as a value where its codec needs the pointer.
  datatype Outgoing = Transmit(msgId: nat, data: Bytes, seqId: nat) | Typed(msgId: nat, data: Bytes) | Unknown | Malformed

  function WireId(m: Outgoing): (id: nat)
    requires m.Transmit? || m.Typed?
    ensures id < U16
  {
    m.msgId % U16
  }

  function WireSeq(m: Outgoing): nat {
    if m.Transmit? then m.seqId else 0
  }

  datatype Sealed = Sealed(flag: nat, body: Bytes)

  // The hand shake goes out under RSA, everything but a ping answer under AES once there
  // is a key; the key doubles as the vector.
  function Seal(env: Env, key: Bytes, id: nat, data: Bytes): Outcome<Sealed> {
    if id == HAND_SHAKE_NTF then
      var c := env.rsaEncrypt(data);
      if c.Some? then Done(Sealed(1, c.value)) else Failed(Rsa)
    else if |key| > 0 && id != PING_ACK then
      var c := AesCbcEncrypt(env.aes, data, key, key);
      if c.Ok? then Done(Sealed(2, c.value)) else Failed(Crypto(c.failure))
    else Done(Sealed(0, data))
  }

  function KeyFor(id: nat): RsaKey {
    if id == HAND_SHAKE_NTF then PrivateClientKey else if id == HAND_SHAKE then PrivateServerKey else PrivateKey
  }

  // A key without a PEM block, and a body of partial AES blocks, are not errors but panics.
  function Opened(env: Env, key: Bytes, p: Package): Outcome<Bytes> {
    if p.flag == 1 then
      if !env.pem(KeyFor(p.id)) then Panicked
      else
        var c := env.rsaDecrypt(KeyFor(p.id), p.body);
        if c.Some? then Done(c.value) else Failed(Rsa)
    else if p.flag == 2 then
      var c := AesCbcDecrypt(env.aes, p.body, key, key);
      if c.Ok? then Done(c.value) else if c.failure.Panic? then Panicked else Failed(Crypto(c.failure))
    else Done(p.body)
  }

  function Decode(env: Env, id: nat, data: Bytes): Outcome<Message> {
    if id !in env.registered then Failed(NotRegistered)
    else if !env.parses(id, data) then Failed(BadMessage)
    else Done(Message(id, data))
  }

  function Read(env: Env, key: Bytes, p: Package): Outcome<Delivery> {
    var data := Opened(env, key, p);
    match data
    case Panicked => Panicked
    case Failed(e) => Failed(e)
    case Done(bytes) =>
      match Decode(env, p.id, bytes)
      case Panicked => Panicked
      case Failed(e) => Failed(e)
      case Done(m) => Done(Delivery(m, p.seqId))
  }

  // Which packages make the reader panic: those under RSA for a key that holds no PEM block,
  // and those under a 16 byte AES key whose body is no whole number of blocks.
  lemma ReadPanicsExactly(env: Env, key: Bytes, p: Package)
    ensures Read(env, key, p).Panicked?
       <==> (p.flag == 1 && !env.pem(KeyFor(p.id))) || (p.flag == 2 && |key| == 16 && |p.body| % BLOCK != 0)
  {
  }

  // With the keys of the package the first case is every package with the hand shake's id.
  lemma PackageKeysPanic(env: Env, key: Bytes, p: Package)
    requires PackageKeys(env)
    ensures Read(env, key, p).Panicked?
       <==> (p.flag == 1 && p.id == HAND_SHAKE) || (p.flag == 2 && |key| == 16 && |p.body| % BLOCK != 0)
  {
    ReadPanicsExactly(env, key, p);
  }

  // So ten bytes make any reader panic, whatever its limit, its AES key and its registered
  // messages; and with an AES key set, so do eleven that name no RSA.
  lemma PanicFrames(env: Env, key: Bytes, maxMsgLen: int, b: Byte, rest: Bytes)
    requires PackageKeys(env)
    ensures var r := Receive(Frame(HAND_SHAKE, 0, 1, []) + rest, maxMsgLen);
            r == Got(Package(HAND_SHAKE, 0, 1, []), rest) && Read(env, key, r.package).Panicked?
    ensures |key| == 16 && maxMsgLen % U16 > 0 ==>
              var r := Receive(Frame(PING_ACK, 0, 2, [b]) + rest, maxMsgLen);
              r == Got(Package(PING_ACK, 0, 2, [b]), rest) && Read(env, key, r.package).Panicked?
  {
    ReceiveExactly(HAND_SHAKE, 0, 1, [], rest, maxMsgLen);
    ReceiveExactly(PING_ACK, 0, 2, [b], rest, maxMsgLen);
    PackageKeysPanic(env, key, Package(HAND_SHAKE, 0, 1, []));
    PackageKeysPanic(env, key, Package(PING_ACK, 0, 2, [b]));
  }

  // Which private key opens which package under RSA.
  lemma RsaByUse(env: Env, key: Bytes, p: Package, data: Bytes)
    requires p.flag == 1
    ensures var k := if p.id == 1006 then PrivateClientKey else if p.id == 0 then PrivateServerKey else PrivateKey;
            Opened(env, key, p) == Done(data) <==> env.pem(k) && env.rsaDecrypt(k, p.body) == Some(data)
  {
  }

  // What is delivered: a package under neither cipher as it is, another one opened, and only
  // if its id is registered and its bytes unmarshal.
  lemma ReadDeliversExactly(env: Env, key: Bytes, p: Package, d: Delivery)
    ensures Read(env, key, p) == Done(d)
       <==> && Opened(env, key, p) == Done(d.message.data) && d.message.id == p.id && d.seqId == p.seqId
            && p.id in env.registered && env.parses(p.id, d.message.data)
    ensures p.flag != 1 && p.flag != 2 ==> Opened(env, key, p) == Done(p.body)
  {
  }

  // What goes on the wire: RSA for the hand shake, the data itself for the ping answer and as
  // long as there is no key, and AES for everything else.
  lemma SealedAs(env: Env, key: Bytes, id: nat, data: Bytes)
    requires Sound(env)
    ensures id == 1006 ==> forall s :: Seal(env, key, id, data) == Done(s) <==> s.flag == 1 && env.rsaEncrypt(data) == Some(s.body)
    ensures id != 1006 && (id == 1001 || |key| == 0) ==> Seal(env, key, id, data) == Done(Sealed(0, data))
    ensures id != 1006 && id != 1001 && |key| == 16 ==>
              var s := Seal(env, key, id, data);
              && s.Done? && s.value.flag == 2 && |s.value.body| == 16 * (|data| / 16 + 1)
              && AesCbcEncrypt(env.aes, data, key, key) == Ok(s.value.body)
              && AesCbcDecrypt(env.aes, s.value.body, key, key) == Ok(data)
    ensures id != 1006 && id != 1001 && |key| != 0 && |key| != 16 ==> Seal(env, key, id, data).Failed?
  {
    EnvelopeRoundTrip(env.aes, data, key, key);
  }

  // The crypto flag chosen when sending selects the matching decryption.
  lemma SealOpens(env: Env, key: Bytes, id: nat, seqId: nat, data: Bytes)
    requires Sound(env)
    ensures var s := Seal(env, key, id, data);
            s.Done? ==> Opened(env, key, Package(id, seqId, s.value.flag, s.value.body)) == Done(data)
  {
    EnvelopeRoundTrip(env.aes, data, key, key);
  }

  datatype SendResult = Wrote(frame: Bytes) | Dropped | Refused(error: Error) | SendPanics

  // A message above the limit is dropped without an error.
  function Send(env: Env, key: Bytes, maxMsgLen: int, m: Outgoing): SendResult {
    if m.Malformed? then SendPanics
    else if m.Unknown? then Refused(NotRegistered)
    else
      var s := Seal(env, key, WireId(m), m.data);
      if s.Panicked? then SendPanics
      else if s.Failed? then Refused(s.error)
      else if |s.value.body| > maxMsgLen then Dropped
      else Wrote(Frame(WireId(m), WireSeq(m), s.value.flag, s.value.body))
  }

  // AES needs a key of exactly 16 bytes, since the key is the vector too.
  lemma AesKeyIsSixteen(env: Env, key: Bytes, maxMsgLen: int, m: Outgoing)
    requires Sound(env) && (m.Transmit? || m.Typed?) && WireId(m) != HAND_SHAKE_NTF && WireId(m) != PING_ACK
    ensures Send(env, key, maxMsgLen, m).Refused? <==> |key| != 0 && |key| != 16
  {
    EnvelopeRoundTrip(env.aes, m.data, key, key);
  }

  // The length of what is sent, if it can be.
  function WireLength(env: Env, key: Bytes, id: nat, data: Bytes): Option<nat> {
    if id == 1006 then
      var c := env.rsaEncrypt(data);
      if c.Some? then Some(|c.value|) else None
    else if id == 1001 || |key| == 0 then Some(|data|)
    else if |key| == 16 then Some(16 * (|data| / 16 + 1))
    else None
  }

  // A message is written exactly if it can be sealed and is then within the limit; the frame
  // carries its id, and the sequence number of a packet passed on, or else 0.
  lemma WrittenExactly(env: Env, key: Bytes, maxMsgLen: int, m: Outgoing)
    requires Sound(env) && (m.Transmit? || m.Typed?)
    ensures var id := m.msgId % 65536; var n := WireLength(env, key, id, m.data); var w := Send(env, key, maxMsgLen, m);
            && (w.Wrote? <==> n.Some? && n.value <= maxMsgLen)
            && (w.Dropped? <==> n.Some? && n.value > maxMsgLen)
            && (w.Wrote? ==> var s := Seal(env, key, id, m.data);
                  s.Done? && |s.value.body| == n.value
                  && w.frame == Frame(id, if m.Transmit? then m.seqId else 0, s.value.flag, s.value.body))
  {
    SealedAs(env, key, m.msgId % U16, m.data);
  }

  // Sending panics on nothing but a malformed message.
  lemma SendPanicsExactly(env: Env, key: Bytes, maxMsgLen: int, m: Outgoing)
    ensures Send(env, key, maxMsgLen, m).SendPanics? <==> m.Malformed?
  {
  }

  // ---- the two ends of a connection -----------------------------------------------------

  // The writing end. It takes each buffer in pieces of a size it chooses itself and may
  // fail; a piece without an error is not empty.
  class Sink {
    var written: Bytes
    var plan: seq<int>

    method Write(buf: Bytes) returns (n: nat, failed: bool)
      requires buf != []
      modifies this
      ensures n <= |buf| && (!failed ==> n > 0)
      ensures written == old(written) + buf[..n]
    {
      n, failed := |buf|, false;
      if plan != [] {
        if plan[0] < 0 {
          n, failed := 0, true;
        } else if plan[0] < |buf| {
          n := if plan[0] == 0 then 1 else plan[0];
        }
        plan := plan[1..];
      }
      written := written + buf[..n];
    }
  }

  // Whatever the pieces are, the buffer arrives whole and in order, or an error is
  // reported and a prefix of it has arrived.
  method WriteFull(writer: Sink, buf: Bytes) returns (failed: bool)
    modifies writer
    ensures !failed ==> writer.written == old(writer.written) + buf
    ensures failed ==> exists k :: 0 <= k <= |buf| && writer.written == old(writer.written) + buf[..k]
  {
    var total := |buf|;
    var pos := 0;
    while pos < total
      invariant 0 <= pos <= total
      invariant writer.written == old(writer.written) + buf[..pos]
    {
      var n, bad := writer.Write(buf[pos..]);
      assert buf[..pos] + buf[pos..][..n] == buf[..pos + n];
      if bad {
        return true;
      }
      pos := pos + n;
    }
    assert buf[..total] == buf;
    return false;
  }

  method SendMessage(env: Env, writer: Sink, m: Outgoing, key: Bytes, maxMsgLen: int) returns (r: Outcome<()>)
    modifies writer
    ensures match Send(env, key, maxMsgLen, m)
            case Refused(e) => r == Failed(e) && writer.written == old(writer.written)
            case SendPanics => r == Panicked && writer.written == old(writer.written)
            case Dropped => r == Done(()) && writer.written == old(writer.written)
            case Wrote(frame) =>
              if r.Done? then writer.written == old(writer.written) + frame
              else r == Failed(SinkFailed) && exists k :: 0 <= k <= |frame| && writer.written == old(writer.written) + frame[..k]
  {
    if m.Malformed? {
      return Panicked;
    }
    if m.Unknown? {
      return Failed(NotRegistered);
    }
    var s := Seal(env, key, WireId(m), m.data);
    if s.Failed? {
      return Failed(s.error);
    }
    if |s.value.body| > maxMsgLen {
      return Done(());
    }
    var data := FillFrame(WireId(m), WireSeq(m), s.value.flag, s.value.body);
    var failed := WriteFull(writer, data[..]);
    return if failed then Failed(SinkFailed) else Done(());
  }

  class Source {
    var stream: Bytes

    // io.ReadFull: all the bytes asked for, or an error with the stream used up.
    method ReadFull(n: nat) returns (buf: Bytes, failed: bool)
      modifies this
      ensures failed <==> |old(stream)| < n
      ensures failed ==> stream == []
      ensures !failed ==> buf == old(stream)[..n] && stream == old(stream)[n..]
    {
      if |stream| < n {
        buf, failed := stream, true;
        stream := [];
      } else {
        buf, failed := stream[..n], false;
        stream := stream[n..];
      }
    }
  }

  method RecvPackageData(reader: Source, maxMsgLen: int) returns (p: Package, failed: bool)
    modifies reader
    ensures failed <==> Receive(old(reader.stream), maxMsgLen).Ended?
    ensures failed ==> reader.stream == []
    ensures !failed ==> Receive(old(reader.stream), maxMsgLen) == Got(p, reader.stream)
  {
    p := Package(0, 0, 0, []);
    var bufMsgLen, bufId, bufSeq, bufFlag;
    bufMsgLen, failed := reader.ReadFull(LEN_SIZE);
    if failed { return; }
    bufId, failed := reader.ReadFull(ID_SIZE);
    if failed { return; }
    bufSeq, failed := reader.ReadFull(SEQ_SIZE);
    if failed { return; }
    bufFlag, failed := reader.ReadFull(FLAG_SIZE);
    if failed { return; }
    p := Package(Get16(bufId), Get32(bufSeq), Get16(bufFlag), []);
    ghost var s := old(reader.stream);
    assert bufMsgLen == s[..2] && bufId == s[2..4] && bufSeq == s[4..8] && bufFlag == s[8..10];
    assert reader.stream == s[HEADER..];
    var msgLen := Get16(bufMsgLen);
    if msgLen > 0 && msgLen > maxMsgLen % U16 {
      return;
    }
    if msgLen > 0 {
      var msgData;
      msgData, failed := reader.ReadFull(msgLen);
      if failed { return; }
      p := p.(body := msgData);
    }
  }

  method ReadMessage(env: Env, reader: Source, maxMsgLen: int, key: Bytes) returns (r: Outcome<Delivery>)
    modifies reader
    ensures match Receive(old(reader.stream), maxMsgLen)
            case Ended => r == Failed(StreamEnded) && reader.stream == []
            case Got(p, rest) => r == Read(env, key, p) && reader.stream == rest
  {
    var p, failed := RecvPackageData(reader, maxMsgLen);
    if failed {
      return Failed(StreamEnded);
    }
    var data := Opened(env, key, p);
    if data.Panicked? {
      return Panicked;
    }
    if data.Failed? {
      return Failed(data.error);
    }
    var m := Decode(env, p.id, data.value);
    if m.Failed? {
      return Failed(m.error);
    }
    return Done(Delivery(m.value, p.seqId));
  }

  // ---- a whole conversation ----------------------------------------------------------------

  function WrittenBy(env: Env, key: Bytes, maxMsgLen: int, ms: seq<Outgoing>): Bytes {
    if ms == [] then []
    else
      var s := Send(env, key, maxMsgLen, ms[0]);
      (if s.Wrote? then s.frame else []) + WrittenBy(env, key, maxMsgLen, ms[1..])
  }

  // The messages within the limit, in order.
  function Fitting(env: Env, key: Bytes, maxMsgLen: int, ms: seq<Outgoing>): seq<Delivery> {
    if ms == [] then []
    else
      var rest := Fitting(env, key, maxMsgLen, ms[1..]);
      if Send(env, key, maxMsgLen, ms[0]).Wrote? then
        [Delivery(Message(WireId(ms[0]), ms[0].data), WireSeq(ms[0]))] + rest
      else rest
  }

  // Reading messages until the stream is empty: what arrived, and whether all of it was
  // well formed.
  function ReadAll(env: Env, key: Bytes, maxMsgLen: int, stream: Bytes): (seq<Delivery>, bool)
    decreases |stream|
  {
    if stream == [] then ([], true)
    else match Receive(stream, maxMsgLen)
      case Ended => ([], false)
      case Got(p, rest) =>
        var r := Read(env, key, p);
        if !r.Done? then ([], false)
        else
          var more := ReadAll(env, key, maxMsgLen, rest);
          ([r.value] + more.0, more.1)
  }

  ghost predicate Sendable(env: Env, key: Bytes, maxMsgLen: int, m: Outgoing) {
    && (m.Transmit? || m.Typed?) && !Send(env, key, maxMsgLen, m).Refused?
    && WireSeq(m) < U32 && WireId(m) in env.registered && env.parses(WireId(m), m.data)
  }

  // Reading everything a list of messages put on the wire returns exactly the fitting ones
  // with their ids and sequence numbers, in order, and uses up every byte.
  lemma {:induction false} StreamRoundTrip(env: Env, key: Bytes, sendMax: int, recvMax: int, ms: seq<Outgoing>)
    requires Sound(env) && 0 <= sendMax <= recvMax < U16
    requires forall i :: 0 <= i < |ms| ==> Sendable(env, key, sendMax, ms[i])
    ensures ReadAll(env, key, recvMax, WrittenBy(env, key, sendMax, ms)) == (Fitting(env, key, sendMax, ms), true)
  {
    if ms == [] {
    } else {
      StreamRoundTrip(env, key, sendMax, recvMax, ms[1..]);
      var m := ms[0];
      assert Sendable(env, key, sendMax, m);
      var rest := WrittenBy(env, key, sendMax, ms[1..]);
      if Send(env, key, sendMax, m).Wrote? {
        var s := Seal(env, key, WireId(m), m.data).value;
        ReceiveExactly(WireId(m), WireSeq(m), s.flag, s.body, rest, recvMax);
        DivModUnique(recvMax, 0, recvMax, U16);
        SealOpens(env, key, WireId(m), WireSeq(m), m.data);
      } else {
        assert WrittenBy(env, key, sendMax, ms) == rest;
      }
    }
  }

  // A sender with a larger limit than its receiver can leave the receiver reading the body
  // of one message as the header of the next.
  lemma LimitMismatchDesyncs(env: Env, maxSend: int, m: Outgoing, recvMax: int)
    requires (m.Transmit? || m.Typed?) && WireId(m) != HAND_SHAKE_NTF && WireSeq(m) < U32
    requires 0 <= recvMax < |m.data| <= maxSend < U16
    ensures Send(env, [], maxSend, m).Wrote?
    ensures Receive(Send(env, [], maxSend, m).frame, recvMax)
         == Got(Package(WireId(m), WireSeq(m), 0, []), m.data)
  {
    var s := Frame(WireId(m), WireSeq(m), 0, m.data);
    FrameParts(WireId(m), WireSeq(m), 0, m.data, []);
    assert s + [] == s && m.data + [] == m.data;
    Get16Put16(|m.data|);
    Get16Put16(WireId(m));
    Get32Put32(WireSeq(m));
    Get16Put16(0);
    DivModUnique(|m.data|, 0, |m.data|, U16);
    DivModUnique(WireId(m), 0, WireId(m), U16);
    DivModUnique(recvMax, 0, recvMax, U16);
  }
}
