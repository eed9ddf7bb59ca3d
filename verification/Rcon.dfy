/** RCON packets of the client: four-byte little-endian two's complement numbers around a payload. */
module RconPackets {
  import opened Bytes
  import opened Wrappers

  const INT_MAX := 0x7FFF_FFFF
  const INT_MIN := -0x8000_0000

  predicate IsInt32(v: int) {
    INT_MIN <= v <= INT_MAX
  }

  function ByteOf(v: int, k: nat): Byte {
    ShiftRight(v, k) % 256
  }

  /** The two's complement in four bytes, least significant first. */
  function Word(v: int): (bs: seq<Byte>)
    requires IsInt32(v)
    ensures |bs| == 4
  {
    LittleEndian(if v < 0 then v + 0x1_0000_0000 else v, 4)
  }

  /** The shifts and bitwise ors of the reader; the top byte supplies the sign. */
  function Join(b0: Byte, b1: Byte, b2: Byte, b3: Byte): int {
    var u := b0 as int + 0x100 * b1 as int + 0x1_0000 * b2 as int + 0x100_0000 * b3 as int;
    if u > INT_MAX then u - 0x1_0000_0000 else u
  }

  /** The shifts and masks of the writer produce it, for negative numbers too. */
  lemma ShiftsGiveTwosComplement(v: int)
    requires IsInt32(v)
    ensures Word(v) == [ByteOf(v, 0), ByteOf(v, 1), ByteOf(v, 2), ByteOf(v, 3)]
  {
    var u := if v < 0 then v + 0x1_0000_0000 else v;
    var v1, u1 := v / 256, u / 256;
    var v2, u2 := v1 / 256, u1 / 256;
    var v3, u3 := v2 / 256, u2 / 256;
    assert ShiftRight(v, 1) == v1 && ShiftRight(v, 2) == v2 && ShiftRight(v, 3) == v3;
    assert u1 == v1 || u1 == v1 + 0x100_0000;
    assert u2 == v2 || u2 == v2 + 0x1_0000;
    assert u3 == v3 || u3 == v3 + 0x100;
    assert LittleEndian(u3, 1) == [u3 % 256];
    assert LittleEndian(u2, 2) == [u2 % 256, u3 % 256];
    assert LittleEndian(u1, 3) == [u1 % 256, u2 % 256, u3 % 256];
    assert LittleEndian(u, 4) == [u % 256, u1 % 256, u2 % 256, u3 % 256];
  }

  /** Rejoining inverts splitting for every 32-bit number, negative ones included. */
  lemma JoinWord(v: int)
    requires IsInt32(v)
    ensures var w := Word(v); Join(w[0], w[1], w[2], w[3]) == v
  {
    ShiftsGiveTwosComplement(v);
    var v1 := v / 256;
    var v2 := v1 / 256;
    var v3 := v2 / 256;
    assert ShiftRight(v, 1) == v1 && ShiftRight(v, 2) == v2 && ShiftRight(v, 3) == v3;
    assert v == 256 * v1 + v % 256 && v1 == 256 * v2 + v1 % 256 && v2 == 256 * v3 + v2 % 256;
    assert -128 <= v3 <= 127;
    assert v3 == v3 % 256 || v3 == v3 % 256 - 256;
  }

  /** And splitting inverts rejoining, so every four bytes denote exactly one number. */
  lemma WordJoin(b0: Byte, b1: Byte, b2: Byte, b3: Byte)
    ensures IsInt32(Join(b0, b1, b2, b3)) && Word(Join(b0, b1, b2, b3)) == [b0, b1, b2, b3]
  {
    var v := Join(b0, b1, b2, b3);
    var top: int := if b3 < 128 then b3 else b3 - 256;
    var v3 := top;
    var v2 := b2 as int + 256 * v3;
    var v1 := b1 as int + 256 * v2;
    assert v == b0 as int + 256 * v1;
    assert v / 256 == v1 && v % 256 == b0;
    assert v1 / 256 == v2 && v1 % 256 == b1;
    assert v2 / 256 == v3 && v2 % 256 == b2;
    assert ShiftRight(v, 1) == v1 && ShiftRight(v, 2) == v2 && ShiftRight(v, 3) == v3;
    ShiftsGiveTwosComplement(v);
  }

  datatype Packet = Packet(length: int, requestId: int, kind: int, payload: seq<Byte>)

  predicate Fits(p: Packet) {
    IsInt32(p.length) && IsInt32(p.requestId) && IsInt32(p.kind)
  }

  function Wire(p: Packet): seq<Byte>
    requires Fits(p)
  {
    Word(p.length) + Word(p.requestId) + Word(p.kind) + p.payload + [0, 0]
  }

  /** The size field counts everything behind itself: two numbers, the payload and two terminators. */
  predicate WellFormed(p: Packet) {
    Fits(p) && p.length == 10 + |p.payload|
  }

  lemma LengthField(p: Packet)
    requires WellFormed(p)
    ensures |Wire(p)| - 4 == p.length
  {
  }

  method AppendInt(data: seq<Byte>, v: int) returns (result: seq<Byte>)
    requires IsInt32(v)
    ensures result == data + Word(v)
  {
    ShiftsGiveTwosComplement(v);
    result := data + [ByteOf(v, 0)];
    result := result + [ByteOf(v, 1)];
    result := result + [ByteOf(v, 2)];
    result := result + [ByteOf(v, 3)];
  }

  /** The buffer that `SendPacket` hands to the socket. */
  method Serialize(packet: Packet) returns (data: seq<Byte>)
    requires Fits(packet)
    ensures data == Wire(packet)
  {
    data := AppendInt([], packet.length);
    data := AppendInt(data, packet.requestId);
    data := AppendInt(data, packet.kind);
    ghost var header := data;
    for i := 0 to |packet.payload|
      invariant data == header + packet.payload[..i]
    {
      data := data + [packet.payload[i]];
    }
    data := data + [0];
    data := data + [0];
  }

  /** A packet and the unread bytes, the exception of a string of negative length, or the overflow of
      the subtraction in front of it, which C++ leaves undefined. */
  datatype Received = Received(packet: Packet, rest: seq<Byte>) | LengthError | Undefined

  /** What a buffer of n zeros holds after reading as much of the stream as fits. */
  function Fill(stream: seq<Byte>, n: nat): (buffer: seq<Byte>)
    ensures |buffer| == n
  {
    if |stream| >= n then stream[..n] else stream + seq(n - |stream|, _ => 0)
  }

  /** `ReceivePacket` on a stream whose reads return all that was asked for, if it is there. */
  function ReceiveOf(stream: seq<Byte>): Received {
    if |stream| < 12 then Received(Packet(0, 0, 0, []), [])
    else
      var length := Join(stream[0], stream[1], stream[2], stream[3]);
      var id := Join(stream[4], stream[5], stream[6], stream[7]);
      var kind := Join(stream[8], stream[9], stream[10], stream[11]);
      if length < INT_MIN + 8 then Undefined
      else if length <= 8 then Received(Packet(length, id, kind, []), stream[12..])
      else if length == 9 then LengthError
      else
        Received(Packet(length, id, kind, Fill(stream[12..], length - 8)[..length - 10]),
                 stream[12 + Min(length - 8, |stream| - 12)..])
  }

  /** On any stream: a short header is an empty packet; the payload is what the length says less ten bytes,
      with zeros for bytes that did not arrive. */
  method Receive(stream: seq<Byte>) returns (r: Received)
    ensures r == ReceiveOf(stream)
    ensures |stream| < 12 ==> r == Received(Packet(0, 0, 0, []), [])
    ensures |stream| >= 12 ==>
      var length := Join(stream[0], stream[1], stream[2], stream[3]);
      var id := Join(stream[4], stream[5], stream[6], stream[7]);
      var kind := Join(stream[8], stream[9], stream[10], stream[11]);
      && (r == Undefined <==> length < -0x8000_0000 + 8)
      && (r == LengthError <==> length == 9)
      && (-0x8000_0000 + 8 <= length <= 8 ==> r == Received(Packet(length, id, kind, []), stream[12..]))
      && (10 <= length ==>
            && r.Received? && r.packet.length == length && r.packet.requestId == id && r.packet.kind == kind
            && |r.packet.payload| == length - 10
            && (forall i :: 0 <= i < length - 10 ==>
                  r.packet.payload[i] == if 12 + i < |stream| then stream[12 + i] else 0)
            && r.rest == if 4 + length <= |stream| then stream[4 + length..] else [])
  {
    if |stream| < 12 {
      return Received(Packet(0, 0, 0, []), []);
    }
    var length := Join(stream[0], stream[1], stream[2], stream[3]);
    var id := Join(stream[4], stream[5], stream[6], stream[7]);
    var kind := Join(stream[8], stream[9], stream[10], stream[11]);
    var packet := Packet(length, id, kind, []);
    var rest := stream[12..];
    if length - 8 < INT_MIN {
      return Undefined;
    }
    var payloadLen := length - 8;
    if payloadLen > 0 {
      var payload := Fill(rest, payloadLen);
      rest := rest[Min(payloadLen, |rest|)..];
      if payloadLen - 2 < 0 {
        return LengthError;
      }
      packet := packet.(payload := payload[..payloadLen - 2]);
    }
    r := Received(packet, rest);
  }

  lemma Layout(p: Packet, tail: seq<Byte>)
    requires WellFormed(p)
    ensures var s := Wire(p) + tail;
            && |s| >= 14 + |p.payload|
            && Join(s[0], s[1], s[2], s[3]) == p.length
            && Join(s[4], s[5], s[6], s[7]) == p.requestId
            && Join(s[8], s[9], s[10], s[11]) == p.kind
            && s[12..][..p.length - 8] == p.payload + [0, 0]
            && s[12..][..p.length - 8][..p.length - 10] == p.payload
            && s[4 + p.length..] == tail
  {
    JoinWord(p.length);
    JoinWord(p.requestId);
    JoinWord(p.kind);
    var s := Wire(p) + tail;
    var header := Word(p.length) + Word(p.requestId) + Word(p.kind);
    assert s == header + (p.payload + [0, 0]) + tail;
    assert s[12..] == (p.payload + [0, 0]) + tail;
  }

  /** The reader returns what the writer sent, ids, kinds and payload included, and stops exactly behind
      the packet, whatever follows on the stream. */
  lemma ReceiveWhatWasSent(p: Packet, tail: seq<Byte>)
    requires WellFormed(p)
    ensures ReceiveOf(Wire(p) + tail) == Received(p, tail)
  {
    Layout(p, tail);
  }

  class RconClient {
    var nextRequestId: int

    constructor ()
      ensures nextRequestId == 1
    {
      nextRequestId := 1;
    }

    /** Each request takes a fresh id and carries the length of its payload and ten bytes more. */
    method NextRequest(kind: int, payload: seq<Byte>) returns (p: Packet)
      requires IsInt32(nextRequestId) && IsInt32(kind) && |payload| < 0x8000_0000 - 10
      modifies this
      ensures WellFormed(p) && p == Packet(10 + |payload|, old(nextRequestId), kind, payload)
      ensures nextRequestId == old(nextRequestId) + 1
    {
      p := Packet(0, nextRequestId, kind, payload);
      nextRequestId := nextRequestId + 1;
      p := p.(length := 10 + |p.payload|);
    }

    /** A request of kind 3; the answer counts as a success unless its id is -1, so that an answer too short
        for a header does, too. None if the reader throws or overflows. */
    method Authenticate(password: seq<Byte>, sent: bool, stream: seq<Byte>) returns (request: Packet, ok: Option<bool>)
      requires IsInt32(nextRequestId) && |password| < 0x8000_0000 - 10
      modifies this
      ensures request == Packet(10 + |password|, old(nextRequestId), 3, password)
      ensures nextRequestId == old(nextRequestId) + 1
      ensures !sent ==> ok == Some(false)
      ensures sent && |stream| < 12 ==> ok == Some(true)
      ensures sent && |stream| >= 12 ==>
        match ReceiveOf(stream)
        case Received(_, _) => ok == Some(Join(stream[4], stream[5], stream[6], stream[7]) != -1)
        case _ => ok == None
    {
      request := NextRequest(3, password);
      if !sent {
        return request, Some(false);
      }
      var response := Receive(stream);
      match response {
        case Received(packet, _) => ok := Some(packet.requestId != -1);
        case _ => ok := None;
      }
    }

    /** A request of kind 2; the result is the payload of the answer. */
    method SendCommand(command: seq<Byte>, sent: bool, stream: seq<Byte>) returns (request: Packet, answer: Option<seq<Byte>>)
      requires IsInt32(nextRequestId) && |command| < 0x8000_0000 - 10
      modifies this
      ensures request == Packet(10 + |command|, old(nextRequestId), 2, command)
      ensures nextRequestId == old(nextRequestId) + 1
      ensures !sent ==> answer == Some([])
      ensures sent ==>
        match ReceiveOf(stream)
        case Received(packet, _) => answer == Some(packet.payload)
        case _ => answer == None
    {
      request := NextRequest(2, command);
      if !sent {
        return request, Some([]);
      }
      var response := Receive(stream);
      match response {
        case Received(packet, _) => answer := Some(packet.payload);
        case _ => answer := None;
      }
    }
  }
}
