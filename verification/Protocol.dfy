/** MCX packets: magic, version, type and a 16-bit little-endian length, then the payload. */
module McxProtocol {
  import opened Bytes
  import opened Wrappers

  const MAGIC: Byte := 0x4D
  const VERSION: Byte := 1
  const PLAYER_JOIN: Byte := 0x10
  const CHAT_MESSAGE: Byte := 0x12
  const ACTION_EXECUTE: Byte := 0x20

  /** The type is an enumeration over one byte; any byte can be cast into it. */
  datatype McxPacket = McxPacket(kind: Byte, data: seq<Byte>)

  /** The wire format. The length field holds the low 16 bits of the size. */
  function Wire(p: McxPacket): seq<Byte> {
    [MAGIC, VERSION, p.kind] + LittleEndian(|p.data|, 2) + p.data
  }

  method Serialize(packet: McxPacket) returns (result: seq<Byte>)
    ensures result == Wire(packet)
    ensures result == [0x4D, 1, packet.kind, |packet.data| % 256, |packet.data| / 256 % 256] + packet.data
  {
    var n := |packet.data|;
    result := [MAGIC];
    result := result + [VERSION];
    result := result + [packet.kind];
    result := result + [n % 256];
    result := result + [n / 256 % 256];
    assert LittleEndian(n, 2) == [n % 256, n / 256 % 256];
    assert result == [0x4D, 1, packet.kind, n % 256, n / 256 % 256];
    result := result + packet.data;
  }

  function PayloadLength(bytes: seq<Byte>): nat
    requires |bytes| >= 5
  {
    FromLittle(bytes[3..5])
  }

  predicate Accepted(bytes: seq<Byte>) {
    |bytes| >= 5 && bytes[0] == MAGIC && bytes[1] == VERSION && |bytes| >= 5 + PayloadLength(bytes)
  }

  lemma TwoBytes(bytes: seq<Byte>)
    requires |bytes| >= 5
    ensures PayloadLength(bytes) == bytes[3] as int + 256 * bytes[4] as int < 65536
  {
    var field := bytes[3..5];
    assert field[1..][0] == bytes[4] && field[1..][1..] == [];
    assert FromLittle(field[1..]) == bytes[4];
  }

  /** What `Deserialize` reads, and what it leaves for the next packet. */
  function Read(bytes: seq<Byte>): Option<(McxPacket, seq<Byte>)> {
    if !Accepted(bytes) then None
    else
      var end := 5 + PayloadLength(bytes);
      Some((McxPacket(bytes[2], bytes[5..end]), bytes[end..]))
  }

  /** The caller's packet object: a rejected input can still have overwritten its type. */
  class Packet {
    var kind: Byte
    var data: seq<Byte>

    function View(): McxPacket
      reads this
    {
      McxPacket(kind, data)
    }

    constructor (kind: Byte, data: seq<Byte>)
      ensures View() == McxPacket(kind, data)
    {
      this.kind, this.data := kind, data;
    }

    method Deserialize(bytes: seq<Byte>) returns (ok: bool)
      modifies this
      ensures ok <==> |bytes| >= 5 && bytes[0] == 0x4D && bytes[1] == 1
                      && |bytes| >= 5 + bytes[3] as int + 256 * bytes[4] as int
      ensures ok <==> Read(bytes).Some?
      ensures ok ==> kind == bytes[2] && data == bytes[5..5 + bytes[3] as int + 256 * bytes[4] as int]
      ensures ok ==> View() == Read(bytes).value.0
      ensures !ok ==> data == old(data)
      ensures !ok ==> kind == if |bytes| >= 5 && bytes[0] == 0x4D && bytes[1] == 1 then bytes[2] else old(kind)
    {
      if |bytes| < 5 {
        return false;
      }
      if bytes[0] != MAGIC {
        return false;
      }
      if bytes[1] != VERSION {
        return false;
      }
      kind := bytes[2];
      var payloadLen := bytes[3] as int + 256 * bytes[4] as int;
      TwoBytes(bytes);
      if |bytes| < 5 + payloadLen {
        return false;
      }
      data := bytes[5..5 + payloadLen];
      return true;
    }
  }

  lemma LowBytes(n: nat)
    ensures n % 256 + 256 * (n / 256 % 256) == n % 65536
  {
    var high := n / 256;
    assert n == 256 * high + n % 256 && high == 256 * (high / 256) + high % 256;
    assert n == 65536 * (high / 256) + (256 * (high % 256) + n % 256);
  }

  lemma LengthOfWire(p: McxPacket, tail: seq<Byte>)
    ensures var bytes := Wire(p) + tail;
            |bytes| >= 5 && PayloadLength(bytes) == |p.data| % 65536 && bytes[5..] == p.data + tail
  {
    var n, bytes := |p.data|, Wire(p) + tail;
    var head := [MAGIC, VERSION, p.kind] + LittleEndian(n, 2);
    assert LittleEndian(n, 2) == [n % 256, n / 256 % 256];
    Reassociate(head, p.data, tail);
    Halves(head, p.data + tail);
    assert bytes[3] == n % 256 && bytes[4] == n / 256 % 256;
    TwoBytes(bytes);
    LowBytes(n);
  }

  /** Reading gives back the first size mod 65536 payload bytes and leaves the rest of the stream. */
  lemma ReadWire(p: McxPacket, tail: seq<Byte>)
    ensures var n := |p.data| % 65536;
            Read(Wire(p) + tail) == Some((McxPacket(p.kind, p.data[..n]), p.data[n..] + tail))
  {
    var bytes, n := Wire(p) + tail, |p.data| % 65536;
    LengthOfWire(p, tail);
    assert bytes[5..5 + n] == bytes[5..][..n] == p.data[..n];
    assert bytes[5 + n..] == bytes[5..][n..] == p.data[n..] + tail;
  }

  /** So packets are recovered in any stream exactly when the payload fits the length field. */
  lemma RoundTripIff(p: McxPacket, tail: seq<Byte>)
    ensures Read(Wire(p) + tail) == Some((p, tail)) <==> |p.data| <= 65535
  {
    ReadWire(p, tail);
    var n := |p.data| % 65536;
    if |p.data| <= 65535 {
      assert p.data[..n] == p.data && p.data[n..] + tail == tail;
    } else {
      assert |p.data[..n]| != |p.data|;
    }
  }

  /** Accepted input re-serializes to itself, so a packet has one encoding only. */
  lemma AcceptedIsCanonical(bytes: seq<Byte>)
    requires Accepted(bytes)
    ensures var (p, rest) := Read(bytes).value;
            |p.data| <= 65535 && Wire(p) == bytes[..5 + |p.data|] && bytes == Wire(p) + rest
  {
    var (p, rest) := Read(bytes).value;
    TwoBytes(bytes);
    LittleCanonical(bytes[3..5]);
    assert Wire(p) == bytes[..3] + bytes[3..5] + p.data;
  }

  // ----- Streams of packets -----

  function WireAll(ps: seq<McxPacket>): seq<Byte> {
    if ps == [] then [] else Wire(ps[0]) + WireAll(ps[1..])
  }

  /** Packets read one after the other until the input is empty or refused, and what remains. */
  function ReadAll(bytes: seq<Byte>): (seq<McxPacket>, seq<Byte>)
    decreases |bytes|
  {
    match Read(bytes)
    case None => ([], bytes)
    case Some((p, rest)) =>
      var (ps, left) := ReadAll(rest);
      ([p] + ps, left)
  }

  lemma {:induction false} StreamRoundTrip(ps: seq<McxPacket>)
    requires forall i :: 0 <= i < |ps| ==> |ps[i].data| <= 65535
    ensures ReadAll(WireAll(ps)) == (ps, [])
  {
    if ps != [] {
      RoundTripIff(ps[0], WireAll(ps[1..]));
      StreamRoundTrip(ps[1..]);
      assert ps == [ps[0]] + ps[1..];
    }
  }

  lemma WireCons(p: McxPacket, ps: seq<McxPacket>, left: seq<Byte>)
    ensures WireAll([p] + ps) + left == Wire(p) + (WireAll(ps) + left)
  {
    assert ([p] + ps)[1..] == ps;
  }

  /** And whatever was read off a stream, in front of what remains, is that stream. */
  lemma {:induction false} ReadAllIsCanonical(bytes: seq<Byte>)
    ensures WireAll(ReadAll(bytes).0) + ReadAll(bytes).1 == bytes
    decreases |bytes|
  {
    if Accepted(bytes) {
      var (p, rest) := Read(bytes).value;
      AcceptedIsCanonical(bytes);
      ReadAllIsCanonical(rest);
      var (ps, left) := ReadAll(rest);
      WireCons(p, ps, left);
    }
  }

  // ----- Two strings in one payload -----

  /** A reader's split at the first zero byte. */
  function SplitPair(data: seq<Byte>): Option<(seq<Byte>, seq<Byte>)> {
    if data == [] then None
    else if data[0] == 0 then Some(([], data[1..]))
    else
      match SplitPair(data[1..])
      case None => None
      case Some((id, text)) => Some(([data[0]] + id, text))
  }

  lemma {:induction false} SplitFindsFirstZero(data: seq<Byte>)
    ensures match SplitPair(data)
            case None => 0 !in data
            case Some((id, text)) => 0 !in id && data == id + [0] + text
  {
    if data != [] && data[0] != 0 {
      SplitFindsFirstZero(data[1..]);
      assert data == [data[0]] + data[1..];
    }
  }

  lemma {:induction false} SplitOfPair(id: seq<Byte>, text: seq<Byte>)
    requires 0 !in id
    ensures SplitPair(id + [0] + text) == Some((id, text))
  {
    var data := id + [0] + text;
    if id == [] {
      assert data[1..] == text;
    } else {
      assert data[1..] == id[1..] + [0] + text && data[0] == id[0];
      assert id[0] in id;
      SplitOfPair(id[1..], text);
      assert id == [id[0]] + id[1..];
    }
  }

  lemma PairSplitsIff(id: seq<Byte>, text: seq<Byte>)
    ensures SplitPair(id + [0] + text) == Some((id, text)) <==> 0 !in id
  {
    SplitFindsFirstZero(id + [0] + text);
    if 0 !in id {
      SplitOfPair(id, text);
    }
  }

  /** The layout of join, chat and action packets. A reader gets both strings back exactly when the id has
      no zero byte. */
  method CreatePair(kind: Byte, id: seq<Byte>, text: seq<Byte>) returns (p: McxPacket)
    ensures p == McxPacket(kind, id + [0] + text)
    ensures SplitPair(p.data) == Some((id, text)) <==> 0 !in id
  {
    var data := id;
    data := data + [0];
    data := data + text;
    PairSplitsIff(id, text);
    p := McxPacket(kind, data);
  }

  method CreatePlayerJoin(playerId: seq<Byte>, playerName: seq<Byte>) returns (p: McxPacket)
    ensures p == McxPacket(0x10, playerId + [0] + playerName)
    ensures SplitPair(p.data) == Some((playerId, playerName)) <==> 0 !in playerId
  {
    p := CreatePair(PLAYER_JOIN, playerId, playerName);
  }

  method CreateChatMessage(playerId: seq<Byte>, message: seq<Byte>) returns (p: McxPacket)
    ensures p == McxPacket(0x12, playerId + [0] + message)
    ensures SplitPair(p.data) == Some((playerId, message)) <==> 0 !in playerId
  {
    p := CreatePair(CHAT_MESSAGE, playerId, message);
  }

  method CreateAction(actionType: seq<Byte>, payload: seq<Byte>) returns (p: McxPacket)
    ensures p == McxPacket(0x20, actionType + [0] + payload)
    ensures SplitPair(p.data) == Some((actionType, payload)) <==> 0 !in actionType
  {
    p := CreatePair(ACTION_EXECUTE, actionType, payload);
  }

  /** End to end, in any stream: both strings come back exactly when the id has no zero byte, given that
      they fit one packet. */
  lemma PairRoundTripIff(kind: Byte, id: seq<Byte>, text: seq<Byte>, tail: seq<Byte>)
    requires |id| + 1 + |text| <= 65535
    ensures var read := Read(Wire(McxPacket(kind, id + [0] + text)) + tail);
            read.Some? && (SplitPair(read.value.0.data) == Some((id, text)) <==> 0 !in id)
  {
    RoundTripIff(McxPacket(kind, id + [0] + text), tail);
    PairSplitsIff(id, text);
  }
}
