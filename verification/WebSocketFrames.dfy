/** WebSocket frames: the server's encoder and decoder against the format of RFC 6455, section 5. */
module WebSocketFrames {
  import opened Bytes
  import opened Wrappers

  // ----- The format, sections 5.2 and 5.3 of RFC 6455 -----

  datatype Frame = Frame(fin: bool, opcode: nat, key: Option<seq<Byte>>, payload: seq<Byte>)

  predicate ValidFrame(f: Frame) {
    && f.opcode < 16
    && (f.key.Some? ==> |f.key.value| == 4)
    && |f.payload| < 0x8000_0000_0000_0000
  }

  function Pow2(n: nat): (p: nat)
    ensures p > 0
  {
    if n == 0 then 1 else 2 * Pow2(n - 1)
  }

  /** Exclusive or of the low n bits: a bit of the result is set where exactly one operand has it. */
  function XorBits(a: nat, b: nat, n: nat): (x: nat)
    ensures x < Pow2(n)
  {
    if n == 0 then 0 else (a + b) % 2 + 2 * XorBits(a / 2, b / 2, n - 1)
  }

  /** Bit i of a number, the lowest one first. */
  predicate Bit(a: nat, i: nat) {
    if i == 0 then a % 2 == 1 else Bit(a / 2, i - 1)
  }

  lemma LowBit(a: nat, b: nat, y: nat)
    ensures var x := (a + b) % 2 + 2 * y; x / 2 == y && x % 2 == (a + b) % 2 && (x + b) % 2 == a % 2
    ensures (a + b) % 2 == 1 <==> (a % 2 == 1) != (b % 2 == 1)
  {
  }

  /** That is what exclusive or does, bit by bit. */
  lemma {:induction false} XorBit(a: nat, b: nat, n: nat, i: nat)
    requires i < n
    ensures Bit(XorBits(a, b, n), i) <==> Bit(a, i) != Bit(b, i)
  {
    LowBit(a, b, XorBits(a / 2, b / 2, n - 1));
    if i > 0 {
      XorBit(a / 2, b / 2, n - 1, i - 1);
    }
  }

  lemma {:induction false} XorBitsTwice(a: nat, b: nat, n: nat)
    requires a < Pow2(n)
    ensures XorBits(XorBits(a, b, n), b, n) == a
  {
    if n > 0 {
      LowBit(a, b, XorBits(a / 2, b / 2, n - 1));
      XorBitsTwice(a / 2, b / 2, n - 1);
    }
  }

  lemma FourBits(n: nat)
    ensures Pow2(n + 4) == 16 * Pow2(n)
  {
    assert Pow2(n + 1) == 2 * Pow2(n) && Pow2(n + 2) == 2 * Pow2(n + 1) && Pow2(n + 3) == 2 * Pow2(n + 2);
  }

  lemma EightBits()
    ensures Pow2(8) == 256
  {
    FourBits(0);
    FourBits(4);
  }

  function Xor(a: Byte, b: Byte): Byte {
    EightBits();
    XorBits(a, b, 8)
  }

  lemma XorTwice(a: Byte, b: Byte)
    ensures Xor(Xor(a, b), b) == a
  {
    EightBits();
    XorBitsTwice(a, b, 8);
  }

  /** Octet i of the payload is combined with octet i modulo 4 of the key. */
  function Mask(key: seq<Byte>, payload: seq<Byte>): (m: seq<Byte>)
    requires |key| == 4
    ensures |m| == |payload|
  {
    seq(|payload|, i requires 0 <= i < |payload| => Xor(payload[i], key[i % 4]))
  }

  /** Bit by bit: a bit of the payload is turned over where the key has one, and the four bytes of the key
      take turns. */
  lemma MaskBits(key: seq<Byte>, payload: seq<Byte>, i: nat, j: nat)
    requires |key| == 4 && i < |payload| && j < 8
    ensures Bit(Mask(key, payload)[i], j) <==> Bit(payload[i], j) != Bit(key[i % 4], j)
  {
    EightBits();
    XorBit(payload[i], key[i % 4], 8, j);
  }

  lemma MaskTwice(key: seq<Byte>, payload: seq<Byte>)
    requires |key| == 4
    ensures Mask(key, Mask(key, payload)) == payload
  {
    forall i | 0 <= i < |payload| ensures Mask(key, Mask(key, payload))[i] == payload[i] {
      XorTwice(payload[i], key[i % 4]);
    }
  }

  /** Bytes of the two extended payload lengths. */
  const MEDIUM: nat := 2
  const LONG: nat := 8

  /** The mask bit and the payload length in the least number of bytes. */
  function LengthField(masked: bool, n: nat): seq<Byte>
    requires n < 0x8000_0000_0000_0000
  {
    var bit := if masked then 128 else 0;
    if n < 126 then [bit + n]
    else if n < 65536 then [bit + 126] + BigEndian(n, MEDIUM)
    else [bit + 127] + BigEndian(n, LONG)
  }

  /** The key, if any, and the payload as it travels. */
  function Content(f: Frame): seq<Byte>
    requires ValidFrame(f)
  {
    match f.key
    case None => f.payload
    case Some(key) => key + Mask(key, f.payload)
  }

  function FirstByte(f: Frame): Byte
    requires f.opcode < 16
  {
    (if f.fin then 128 else 0) + f.opcode
  }

  function RfcEncode(f: Frame): seq<Byte>
    requires ValidFrame(f)
  {
    [FirstByte(f)] + LengthField(f.key.Some?, |f.payload|) + Content(f)
  }

  /** How many bytes the length field takes, and the length; None if incomplete or not minimal. */
  function RfcLength(bytes: seq<Byte>): (r: Option<(nat, nat)>)
    ensures r.Some? ==> r.value.0 <= |bytes|
  {
    if |bytes| < 1 then None
    else if bytes[0] % 128 < 126 then Some((1, bytes[0] % 128))
    else if bytes[0] % 128 == 126 then
      if |bytes| < 3 || FromBig(bytes[1..3]) < 126 then None else Some((3, FromBig(bytes[1..3])))
    else if |bytes| < 9 || !(65536 <= FromBig(bytes[1..9]) < 0x8000_0000_0000_0000) then None
    else Some((9, FromBig(bytes[1..9])))
  }

  /** What follows the length field: the key if there is one, n payload bytes, the rest of the stream. */
  function RfcBody(first: Byte, masked: bool, n: nat, body: seq<Byte>): Option<(Frame, seq<Byte>)> {
    if !masked then
      if |body| < n then None else Some((Frame(first >= 128, first % 16, None, body[..n]), body[n..]))
    else
      if |body| < 4 + n then None
      else Some((Frame(first >= 128, first % 16, Some(body[..4]), Mask(body[..4], body[4..4 + n])), body[4 + n..]))
  }

  /** One frame off the front of a stream, and the rest of the stream. */
  function RfcDecode(bytes: seq<Byte>): Option<(Frame, seq<Byte>)> {
    if |bytes| < 2 || bytes[0] / 16 % 8 != 0 then None
    else
      match RfcLength(bytes[1..])
      case None => None
      case Some((used, n)) => RfcBody(bytes[0], bytes[1] >= 128, n, bytes[1 + used..])
  }

  // ----- The unmasked examples of section 5.7 of RFC 6455 -----

  const HELLO: seq<Byte> := [0x48, 0x65, 0x6c, 0x6c, 0x6f]

  lemma ExampleUnmasked()
    ensures RfcEncode(Frame(true, 1, None, HELLO)) == [0x81, 0x05, 0x48, 0x65, 0x6c, 0x6c, 0x6f]
  {
  }

  lemma ExampleMaskedHeader(key: seq<Byte>, payload: seq<Byte>)
    requires |key| == 4 && |payload| == 5
    ensures RfcEncode(Frame(true, 1, Some(key), payload)) == [0x81, 0x85] + key + Mask(key, payload)
  {
  }

  lemma ExampleFragments()
    ensures RfcEncode(Frame(false, 1, None, HELLO[..3])) == [0x01, 0x03, 0x48, 0x65, 0x6c]
    ensures RfcEncode(Frame(true, 0, None, HELLO[3..])) == [0x80, 0x02, 0x6c, 0x6f]
  {
  }

  lemma ExampleLengths(small: seq<Byte>, large: seq<Byte>)
    requires |small| == 256 && |large| == 65536
    ensures RfcEncode(Frame(true, 2, None, small)) == [0x82, 0x7e, 0x01, 0x00] + small
    ensures RfcEncode(Frame(true, 2, None, large)) == [0x82, 0x7f, 0, 0, 0, 0, 0, 1, 0, 0] + large
  {
    assert BigEndian(256, MEDIUM) == [1, 0];
    assert BigEndian(65536, LONG) == [0, 0, 0, 0, 0, 1, 0, 0];
  }

  lemma LengthRoundTrip(masked: bool, n: nat, tail: seq<Byte>)
    requires n < 0x8000_0000_0000_0000
    ensures RfcLength(LengthField(masked, n) + tail) == Some((|LengthField(masked, n)|, n))
  {
    Powers();
    var bytes := LengthField(masked, n) + tail;
    if 126 <= n < 65536 {
      BigRoundTrip(n, MEDIUM);
      assert bytes[1..3] == BigEndian(n, MEDIUM);
    } else if 65536 <= n {
      BigRoundTrip(n, LONG);
      assert bytes[1..9] == BigEndian(n, LONG);
    }
  }

  lemma ContentRoundTrip(key: Option<seq<Byte>>, payload: seq<Byte>, tail: seq<Byte>)
    requires key.Some? ==> |key.value| == 4
    ensures match key
            case None => (payload + tail)[..|payload|] == payload && (payload + tail)[|payload|..] == tail
            case Some(k) =>
              var body := k + Mask(k, payload) + tail;
              body[..4] == k && Mask(k, body[4..4 + |payload|]) == payload && body[4 + |payload|..] == tail
  {
    Halves(payload, tail);
    if key.Some? {
      var k, m := key.value, Mask(key.value, payload);
      Reassociate(k, m, tail);
      Halves(k, m + tail);
      Halves(k + m, tail);
      SliceOfTail(k + m + tail, 4, |payload|);
      Halves(m, tail);
      MaskTwice(k, payload);
    }
  }

  lemma HeaderRoundTrip(first: Byte, masked: bool, n: nat, body: seq<Byte>)
    requires first / 16 % 8 == 0 && n < 0x8000_0000_0000_0000
    ensures RfcDecode([first] + LengthField(masked, n) + body) == RfcBody(first, masked, n, body)
  {
    var field := LengthField(masked, n);
    LengthRoundTrip(masked, n, body);
    Reassociate([first], field, body);
    Halves([first], field + body);
    Halves([first] + field, body);
  }

  lemma FirstByteFields(f: Frame)
    requires f.opcode < 16
    ensures var b := FirstByte(f); b / 16 % 8 == 0 && (b >= 128 <==> f.fin) && b % 16 == f.opcode
  {
  }

  lemma BodyRoundTrip(f: Frame, tail: seq<Byte>)
    requires ValidFrame(f)
    ensures RfcBody(FirstByte(f), f.key.Some?, |f.payload|, Content(f) + tail) == Some((f, tail))
  {
    FirstByteFields(f);
    ContentRoundTrip(f.key, f.payload, tail);
  }

  /** The reference decoder inverts the reference encoder in any stream, masked or not. */
  lemma RfcRoundTrip(f: Frame, tail: seq<Byte>)
    requires ValidFrame(f)
    ensures RfcDecode(RfcEncode(f) + tail) == Some((f, tail))
  {
    var first, field := FirstByte(f), LengthField(f.key.Some?, |f.payload|);
    FirstByteFields(f);
    HeaderRoundTrip(first, f.key.Some?, |f.payload|, Content(f) + tail);
    Reassociate([first] + field, Content(f), tail);
    BodyRoundTrip(f, tail);
  }

  lemma MediumField(first: Byte, digits: seq<Byte>)
    requires |digits| == MEDIUM && first % 128 == 126 && 126 <= FromBig(digits)
    ensures FromBig(digits) < 65536 && LengthField(first >= 128, FromBig(digits)) == [first] + digits
  {
    BigCanonical(digits);
    Powers();
  }

  lemma LongField(first: Byte, digits: seq<Byte>)
    requires |digits| == LONG && first % 128 == 127 && 65536 <= FromBig(digits) < 0x8000_0000_0000_0000
    ensures LengthField(first >= 128, FromBig(digits)) == [first] + digits
  {
    BigCanonical(digits);
  }

  lemma LengthCanonical(bytes: seq<Byte>)
    requires RfcLength(bytes).Some?
    ensures var (used, n) := RfcLength(bytes).value;
            n < 0x8000_0000_0000_0000 && bytes[..used] == LengthField(bytes[0] >= 128, n)
  {
    var (used, n) := RfcLength(bytes).value;
    assert bytes[..used] == [bytes[0]] + bytes[1..used];
    if used == 3 {
      MediumField(bytes[0], bytes[1..used]);
    } else if used == 9 {
      LongField(bytes[0], bytes[1..used]);
    }
  }

  /** Conversely whatever the reference decoder accepts is the encoding of what it returns, so a frame
      has only one encoding. */
  lemma RfcCanonical(bytes: seq<Byte>)
    requires RfcDecode(bytes).Some?
    ensures var (f, rest) := RfcDecode(bytes).value;
            ValidFrame(f) && bytes == RfcEncode(f) + rest
  {
    var (f, rest) := RfcDecode(bytes).value;
    LengthCanonical(bytes[1..]);
    var (used, n) := RfcLength(bytes[1..]).value;
    var body := bytes[1 + used..];
    var field := LengthField(f.key.Some?, n);
    SplitAt(bytes, 1 + used);
    assert bytes[..1 + used] == [bytes[0]] + field;
    var content := Content(f);
    assert body == content + rest by {
      if f.key.Some? {
        MaskTwice(f.key.value, body[4..4 + n]);
        SplitAt(body, 4 + n);
        SplitAt(body[..4 + n], 4);
        assert body[..4 + n][4..] == body[4..4 + n] && body[..4 + n][..4] == body[..4];
      } else {
        SplitAt(body, n);
      }
    }
    assert RfcEncode(f) == [bytes[0]] + field + content;
    Reassociate([bytes[0]] + field, content, rest);
  }

  // ----- The server's encoder -----

  /** An unmasked text frame, as servers send it. */
  function TextFrame(message: seq<Byte>): Frame {
    Frame(true, 1, None, message)
  }

  lemma LongShift(n: nat)
    requires n < 0x8000_0000_0000_0000
    ensures ShiftRight(n, 8) == 0
  {
    assert ShiftRight(n, 1) < 0x80_0000_0000_0000;
    assert ShiftRight(n, 2) < 0x8000_0000_0000;
    assert ShiftRight(n, 3) < 0x80_0000_0000;
    assert ShiftRight(n, 4) < 0x8000_0000;
    assert ShiftRight(n, 5) < 0x80_0000;
    assert ShiftRight(n, 6) < 0x8000;
    assert ShiftRight(n, 7) < 0x80;
  }

  lemma LongLength(n: nat)
    requires n < 0x8000_0000_0000_0000
    ensures FromBig(BigEndian(n, 8)) == n
  {
    Powers();
    BigRoundTrip(n, 8);
  }

  lemma TwoBytesBig(n: nat)
    ensures BigEndian(n, 2) == [n / 256 % 256, n % 256]
  {
    assert BigEndian(n / 256, 1) == [n / 256 % 256];
  }

  lemma MediumFrameBytes(message: seq<Byte>)
    requires 126 <= |message| < 65536
    ensures RfcEncode(TextFrame(message)) == [0x81, 126, |message| / 256, |message| % 256] + message
  {
    TwoBytesBig(|message|);
  }

  lemma LongFrameBytes(message: seq<Byte>, frame: seq<Byte>, digits: seq<Byte>)
    requires 65536 <= |message| < 0x8000_0000_0000_0000 && frame == RfcEncode(TextFrame(message))
    requires digits == BigEndian(|message|, LONG)
    ensures |frame| == 10 + |message| && frame[..2] == [0x81, 127] && frame[10..] == message && frame[2..10] == digits
  {
    var head := [0x81] + ([127] + digits);
    assert frame == head + message;
    Halves(head, message);
    SliceInFront(head, message, 0, 2);
    SliceInFront(head, message, 2, 10);
    assert head[..2] == [0x81, 127] && head[2..10] == digits;
  }

  /** The same frame byte by byte: one, three or nine bytes of length, and the message. */
  lemma TextFrameBytes(message: seq<Byte>, frame: seq<Byte>)
    requires |message| < 0x8000_0000_0000_0000 && frame == RfcEncode(TextFrame(message))
    ensures |message| < 126 ==> frame == [0x81, |message|] + message
    ensures 126 <= |message| < 65536 ==> frame == [0x81, 126, |message| / 256, |message| % 256] + message
    ensures 65536 <= |message| ==> |frame| == 10 + |message| && frame[..2] == [0x81, 127] && frame[10..] == message
                                   && FromBig(frame[2..10]) == |message|
  {
    if 65536 <= |message| {
      LongLength(|message|);
      LongFrameBytes(message, frame, BigEndian(|message|, LONG));
    } else if 126 <= |message| {
      MediumFrameBytes(message);
    }
  }

  method EncodeFrame(message: seq<Byte>) returns (frame: seq<Byte>)
    requires |message| < 0x8000_0000_0000_0000
    ensures frame == RfcEncode(TextFrame(message))
    ensures |message| < 126 ==> frame == [0x81, |message|] + message
    ensures 126 <= |message| < 65536 ==> frame == [0x81, 126, |message| / 256, |message| % 256] + message
    ensures 65536 <= |message| ==> |frame| == 10 + |message| && frame[..2] == [0x81, 127] && frame[10..] == message
                                   && FromBig(frame[2..10]) == |message|
  {
    frame := [0x81];
    var n := |message|;
    if n < 126 {
      frame := frame + [n];
    } else if n < 65536 {
      frame := frame + [126];
      frame := frame + [ShiftRight(n, 1) % 256];
      frame := frame + [n % 256];
      TwoBytesBig(n);
      assert ShiftRight(n, 1) == n / 256;
      assert frame == [0x81] + ([126] + BigEndian(n, 2));
    } else {
      frame := frame + [127];
      var i := 7;
      assert ShiftRight(n, 8) == 0 by {
        LongShift(n);
      }
      while i >= 0
        invariant -1 <= i <= 7 && frame == [0x81, 127] + BigEndian(ShiftRight(n, i + 1), 7 - i)
      {
        frame := frame + [ShiftRight(n, i) % 256];
        i := i - 1;
      }
      assert frame == [0x81] + ([127] + BigEndian(n, 8));
    }
    assert frame == [0x81] + LengthField(false, n);
    frame := frame + message;
    TextFrameBytes(message, frame);
  }

  // ----- The server's decoder -----

  /** A string, the exception of `substr`, or a read beyond the terminator of the string. */
  datatype Outcome = Decoded(text: seq<Byte>) | OutOfRange | Undefined

  /** `char` is signed on the targets of the build: bytes from 128 up read as negative numbers. */
  function SignedChar(b: Byte): int {
    if b < 128 then b else b - 256
  }

  /** (hi << 8) | lo on sign-extended operands: a negative low byte sets every higher bit. */
  function JoinSigned(hi: Byte, lo: Byte): int {
    if lo < 128 then SignedChar(hi) * 256 + lo else SignedChar(lo)
  }

  /** Inclusive or of the low n bits. */
  function OrBits(a: nat, b: nat, n: nat): (x: nat)
    ensures x < Pow2(n)
  {
    if n == 0 then 0 else (if a % 2 == 1 || b % 2 == 1 then 1 else 0) + 2 * OrBits(a / 2, b / 2, n - 1)
  }

  lemma {:induction false} OrBit(a: nat, b: nat, n: nat, i: nat)
    requires i < n
    ensures Bit(OrBits(a, b, n), i) <==> Bit(a, i) || Bit(b, i)
  {
    if i > 0 {
      OrBit(a / 2, b / 2, n - 1, i - 1);
    }
  }

  lemma {:induction false} OrWithZeros(a: nat, n: nat)
    requires a < Pow2(n)
    ensures OrBits(a, 0, n) == a
  {
    if n > 0 {
      OrWithZeros(a / 2, n - 1);
    }
  }

  lemma {:induction false} OrWithOnes(a: nat, n: nat)
    ensures OrBits(a, Pow2(n) - 1, n) == Pow2(n) - 1
  {
    if n > 0 {
      OrWithOnes(a / 2, n - 1);
      assert (Pow2(n) - 1) / 2 == Pow2(n - 1) - 1 && (Pow2(n) - 1) % 2 == 1;
    }
  }

  /** v shifted left by k bits, without a limit. */
  function ShiftLeft(v: nat, k: nat): nat {
    if k == 0 then v else 2 * ShiftLeft(v, k - 1)
  }

  /** Where one operand has k zero bits at its end, those of the other show. */
  lemma {:induction false} OrShifted(a: nat, b: nat, low: nat, k: nat, n: nat)
    requires low < Pow2(k)
    ensures OrBits(ShiftLeft(a, k), ShiftLeft(b, k) + low, n + k) == ShiftLeft(OrBits(a, b, n), k) + low
    decreases k
  {
    if k > 0 {
      OrShifted(a, b, low / 2, k - 1, n);
      assert (ShiftLeft(b, k) + low) / 2 == ShiftLeft(b, k - 1) + low / 2;
    }
  }

  const WORD := 0x1_0000_0000

  /** A `char` promoted to a 32-bit `int`, as the word that holds it. */
  function SignExtend(b: Byte): nat {
    if b < 128 then b else WORD - 256 + b
  }

  /** The number a 32-bit word stands for. */
  function Signed(word: nat): int {
    if word < WORD / 2 then word else word - WORD
  }

  lemma TwoShifts(v: nat, k: nat)
    ensures ShiftLeft(v, k + 2) == 4 * ShiftLeft(v, k)
  {
    assert ShiftLeft(v, k + 2) == 2 * ShiftLeft(v, k + 1);
  }

  lemma ByteShift(v: nat)
    ensures ShiftLeft(v, 8) == 256 * v
  {
    TwoShifts(v, 0);
    TwoShifts(v, 2);
    TwoShifts(v, 4);
    TwoShifts(v, 6);
  }

  lemma ThreeBytes()
    ensures Pow2(24) == 0x100_0000
  {
    EightBits();
    FourBits(8);
    FourBits(12);
    FourBits(16);
    FourBits(20);
  }

  /** A non-negative low byte shows under the high ones; a negative one hides them. */
  lemma OrBytes(high: nat, lo: Byte)
    requires high < 0x100_0000
    ensures OrBits(256 * high, lo, 32) == 256 * high + lo
    ensures OrBits(256 * high, WORD - 256 + lo, 32) == WORD - 256 + lo
  {
    EightBits();
    ThreeBytes();
    var ones := 0x100_0000 - 1;
    ByteShift(high);
    ByteShift(0);
    ByteShift(ones);
    OrWithZeros(high, 24);
    OrShifted(high, 0, lo, 8, 24);
    OrWithOnes(high, 24);
    OrShifted(high, ones, lo, 8, 24);
  }

  /** `JoinSigned` is what the shift and the bitwise or do on the 32-bit words of the promoted bytes. */
  lemma JoinOnWords(hi: Byte, lo: Byte)
    ensures Signed(OrBits(ShiftLeft(SignExtend(hi), 8) % WORD, SignExtend(lo), 32)) == JoinSigned(hi, lo)
  {
    var high := if hi < 128 then hi else 0x100_0000 - 256 + hi;
    ByteShift(SignExtend(hi));
    assert ShiftLeft(SignExtend(hi), 8) % WORD == 256 * high;
    OrBytes(high, lo);
  }

  /** The conversion of an `int` to `uint64_t`. */
  function ToUInt64(v: int): nat {
    v % 0x1_0000_0000_0000_0000
  }

  /** Reading at the end of a C++ string gives its terminator. */
  function CharAt(s: seq<Byte>, i: nat): Byte
    requires i <= |s|
  {
    if i == |s| then 0 else s[i]
  }

  /** Payload length and position after the length field, as the code computes them; it never reads the
      eight-byte form. */
  function CodeLength(frame: seq<Byte>): (r: Option<(nat, nat)>)
    requires |frame| >= 2
  {
    var short := frame[1] % 128;
    if short == 126 then
      if |frame| < 3 then None else Some((ToUInt64(JoinSigned(frame[2], CharAt(frame, 3))), 4))
    else if short == 127 then Some((127, 10))
    else Some((short, 2))
  }

  /** Key and payload of a masked frame, read up to the terminator and no further. */
  function CodeUnmask(frame: seq<Byte>, offset: nat, n: nat): Outcome {
    var readable := frame + [0];
    if offset + 4 + n > |readable| then Undefined
    else Decoded(Mask(readable[offset..offset + 4], readable[offset + 4..offset + 4 + n]))
  }

  function CodeDecode(frame: seq<Byte>): Outcome {
    if |frame| < 2 || frame[0] % 16 !in {1, 2} then Decoded([])
    else
      match CodeLength(frame)
      case None => Undefined
      case Some((n, offset)) =>
        if frame[1] >= 128 then CodeUnmask(frame, offset, n)
        else if offset > |frame| then OutOfRange
        else Decoded(frame[offset..offset + Min(n, |frame| - offset)])
  }

  lemma SliceSnoc(s: seq<Byte>, a: nat, b: nat)
    requires a <= b < |s|
    ensures s[a..b + 1] == s[a..b] + [s[b]]
  {
  }

  method UnmaskFrame(frame: seq<Byte>, start: nat, payloadLen: nat) returns (r: Outcome)
    ensures r == CodeUnmask(frame, start, payloadLen)
  {
    if start + 3 > |frame| {
      return Undefined;
    }
    ghost var readable := frame + [0];
    var key := [CharAt(frame, start), CharAt(frame, start + 1), CharAt(frame, start + 2), CharAt(frame, start + 3)];
    assert key == readable[start..start + 4];
    var offset := start + 4;
    var result: seq<Byte> := [];
    for i := 0 to payloadLen
      invariant offset + i <= |readable| && result == Mask(key, readable[offset..offset + i])
    {
      if offset + i > |frame| {
        return Undefined;
      }
      result := result + [Xor(CharAt(frame, offset + i), key[i % 4])];
      SliceSnoc(readable, offset, offset + i);
    }
    r := Decoded(result);
  }

  method DecodeFrame(frame: seq<Byte>) returns (r: Outcome)
    ensures r == CodeDecode(frame)
    ensures |frame| < 2 || frame[0] % 16 !in {1, 2} ==> r == Decoded([])
  {
    if |frame| < 2 {
      return Decoded([]);
    }
    var opcode := frame[0] % 16;
    if opcode != 1 && opcode != 2 {
      return Decoded([]);
    }
    var payloadLen, offset := frame[1] % 128, 2;
    if payloadLen == 126 {
      if |frame| < 3 {
        return Undefined;
      }
      payloadLen, offset := ToUInt64(JoinSigned(frame[2], CharAt(frame, 3))), 4;
    } else if payloadLen == 127 {
      offset := 10;
    }
    if frame[1] < 128 {
      if offset > |frame| {
        return OutOfRange;
      }
      return Decoded(frame[offset..offset + Min(payloadLen, |frame| - offset)]);
    }
    r := UnmaskFrame(frame, offset, payloadLen);
  }

  // ----- The server's decoder against the format -----

  /** Where the key and the payload of a frame start. */
  function BodyOffset(n: nat): nat {
    if n < 126 then 2 else if n < 65536 then 4 else 10
  }

  lemma CodeLengthOfField(f: Frame, tail: seq<Byte>)
    requires ValidFrame(f)
    ensures var n := |f.payload|;
            CodeLength(RfcEncode(f) + tail) == Some(
              if n < 126 then (n, 2)
              else if n < 65536 then (ToUInt64(JoinSigned(n / 256, n % 256)), 4)
              else (127, 10))
  {
    var frame, n := RfcEncode(f) + tail, |f.payload|;
    var field := LengthField(f.key.Some?, n);
    assert frame[1] == field[0];
    if 126 <= n < 65536 {
      assert BigEndian(n, 2) == [n / 256 % 256, n % 256];
      assert frame[2] == field[1] && frame[3] == field[2];
    }
  }

  lemma BodyOf(f: Frame, tail: seq<Byte>)
    requires ValidFrame(f)
    ensures |RfcEncode(f)| == BodyOffset(|f.payload|) + |Content(f)|
    ensures (RfcEncode(f) + tail)[BodyOffset(|f.payload|)..] == Content(f) + tail
  {
    var head := [FirstByte(f)] + LengthField(f.key.Some?, |f.payload|);
    Reassociate(head, Content(f), tail);
    Halves(head, Content(f) + tail);
  }

  /** The decoder reads the length right: 7 bits, or two bytes that are no negative `char`. */
  predicate LengthIsRead(n: nat) {
    n < 126 || (n < 65536 && n / 256 < 128 && n % 256 < 128)
  }

  /** The sign extension never shortens a length: it is exact or larger than any string. */
  lemma SignedLength(n: nat)
    requires n < 65536
    ensures var v := ToUInt64(JoinSigned(n / 256, n % 256));
            if n / 256 < 128 && n % 256 < 128 then v == n else v >= 0x1_0000_0000_0000_0000 - 32768
  {
  }

  /** What of an unmasked frame and the bytes received behind it the decoder takes for the message. */
  function Delivered(payload: seq<Byte>, tail: seq<Byte>): seq<Byte> {
    if LengthIsRead(|payload|) then payload
    else if |payload| < 65536 then payload + tail
    else payload[..127]
  }

  /** Unmasked data frames, which covers everything `EncodeFrame` produces, at the front of whatever one
      call of `recv` returned. The payload is delivered exactly if the length is read right, or is a 16-bit
      length and nothing was received behind the frame. Otherwise a 16-bit length swallows what follows,
      and a 64-bit length, which is never read, gives the first 127 bytes. */
  lemma UnmaskedFramesDecode(f: Frame, tail: seq<Byte>)
    requires ValidFrame(f) && f.key.None? && f.opcode in {1, 2} && |tail| < 0x8000_0000_0000_0000
    ensures CodeDecode(RfcEncode(f) + tail) == Decoded(Delivered(f.payload, tail))
    ensures CodeDecode(RfcEncode(f) + tail) == Decoded(f.payload)
            <==> LengthIsRead(|f.payload|) || (|f.payload| < 65536 && tail == [])
  {
    var frame, n := RfcEncode(f) + tail, |f.payload|;
    var offset := BodyOffset(n);
    CodeLengthOfField(f, tail);
    BodyOf(f, tail);
    SignedLength(if n < 65536 then n else 0);
    FirstByteFields(f);
    var taken := Min(CodeLength(frame).value.0, |frame| - offset);
    SliceOfTail(frame, offset, taken);
    assert (f.payload + tail)[..taken] == Delivered(f.payload, tail);
  }

  /** Frames with any other opcode are dropped, whatever they hold. */
  lemma OtherFramesAreDropped(f: Frame, tail: seq<Byte>)
    requires ValidFrame(f) && f.opcode !in {1, 2}
    ensures CodeDecode(RfcEncode(f) + tail) == Decoded([])
  {
    FirstByteFields(f);
    assert (RfcEncode(f) + tail)[0] == FirstByte(f);
  }

  /** Of every masked string whatsoever: each bit of a decoded message is the exclusive or of the bit
      received and that of the key, whose four bytes take turns. */
  lemma MaskedMessageBits(frame: seq<Byte>, i: nat, j: nat)
    requires |frame| >= 2 && frame[0] % 16 in {1, 2} && frame[1] >= 128
    requires CodeDecode(frame).Decoded? && i < |CodeDecode(frame).text| && j < 8
    ensures var offset := if frame[1] % 128 == 126 then 4 else if frame[1] % 128 == 127 then 10 else 2;
      && offset + 4 + i <= |frame|
      && (Bit(CodeDecode(frame).text[i], j) <==> Bit(CharAt(frame, offset + 4 + i), j) != Bit(frame[offset + i % 4], j))
  {
    var (n, offset) := CodeLength(frame).value;
    var readable := frame + [0];
    var key, masked := readable[offset..offset + 4], readable[offset + 4..offset + 4 + n];
    EightBits();
    XorBit(masked[i], key[i % 4], 8, j);
  }

  lemma MaskPrefix(key: seq<Byte>, payload: seq<Byte>, n: nat)
    requires |key| == 4 && n <= |payload|
    ensures Mask(key, Mask(key, payload)[..n]) == payload[..n]
  {
    assert Mask(key, payload)[..n] == Mask(key, payload[..n]);
    MaskTwice(key, payload[..n]);
  }

  lemma UnmaskReads(frame: seq<Byte>, offset: nat, key: seq<Byte>, masked: seq<Byte>, tail: seq<Byte>, n: nat)
    requires |key| == 4 && n <= |masked| && offset <= |frame| && frame[offset..] == key + masked + tail
    ensures CodeUnmask(frame, offset, n) == Decoded(Mask(key, masked[..n]))
  {
    var readable, body := frame + [0], key + masked + tail;
    SliceInFront(frame, [0], offset, offset + 4);
    SliceOfSuffix(frame, offset, 0, 4);
    Reassociate(key, masked, tail);
    Halves(key, masked + tail);
    SliceInFront(frame, [0], offset + 4, offset + 4 + n);
    SliceOfSuffix(frame, offset, 4, 4 + n);
    SliceOfSuffix(body, 4, 0, n);
    SliceInFront(masked, tail, 0, n);
    assert readable[offset..offset + 4] == key && readable[offset + 4..offset + 4 + n] == masked[..n];
  }

  /** Masked data frames at the front of whatever was received. The payload is delivered exactly if the
      length is read right, whatever follows. With any other 16-bit length the loop runs off the string. */
  lemma MaskedFramesDecode(f: Frame, tail: seq<Byte>)
    requires ValidFrame(f) && f.key.Some? && f.opcode in {1, 2} && |tail| < 0x8000_0000_0000_0000
    ensures CodeDecode(RfcEncode(f) + tail)
            == if LengthIsRead(|f.payload|) then Decoded(f.payload)
               else if |f.payload| < 65536 then Undefined
               else Decoded(f.payload[..127])
    ensures CodeDecode(RfcEncode(f) + tail) == Decoded(f.payload) <==> LengthIsRead(|f.payload|)
  {
    var frame, n, key := RfcEncode(f) + tail, |f.payload|, f.key.value;
    CodeLengthOfField(f, tail);
    BodyOf(f, tail);
    SignedLength(if n < 65536 then n else 0);
    FirstByteFields(f);
    if LengthIsRead(n) || n >= 65536 {
      var taken := if n < 65536 then n else 127;
      UnmaskReads(frame, BodyOffset(n), key, Mask(key, f.payload), tail, taken);
      MaskPrefix(key, f.payload, taken);
    }
  }

  // ----- Frames cut off by the buffer of one read -----

  lemma PrefixOfSuffix(s: seq<Byte>, offset: nat, k: nat)
    requires offset <= k <= |s|
    ensures s[..k][offset..] == s[offset..][..k - offset]
  {
  }

  lemma NothingBehind(s: seq<Byte>)
    ensures s + [] == s
  {
  }

  /** What the decoder reads in front of the payload, and what there is of key and payload. */
  lemma CutFrame(f: Frame, k: nat)
    requires ValidFrame(f) && BodyOffset(|f.payload|) <= k <= |RfcEncode(f)|
    ensures var frame, n := RfcEncode(f)[..k], |f.payload|;
      && |frame| >= 2 && frame[0] == FirstByte(f) && (frame[1] >= 128 <==> f.key.Some?)
      && CodeLength(frame) == Some(if n < 126 then (n, 2)
                                   else if n < 65536 then (ToUInt64(JoinSigned(n / 256, n % 256)), 4)
                                   else (127, 10))
      && |RfcEncode(f)| == BodyOffset(n) + |Content(f)|
      && frame[BodyOffset(n)..] == Content(f)[..k - BodyOffset(n)]
  {
    CodeLengthOfField(f, []);
    BodyOf(f, []);
    NothingBehind(RfcEncode(f));
    NothingBehind(Content(f));
    PrefixOfSuffix(RfcEncode(f), BodyOffset(|f.payload|), k);
    assert RfcEncode(f)[..k][1] == RfcEncode(f)[1] == LengthField(f.key.Some?, |f.payload|)[0];
  }

  /** An unmasked frame of which only k bytes, behind the length field, were received: the message is what
      there is of the payload, and the rest is not waited for. */
  lemma CutUnmaskedFrame(f: Frame, k: nat)
    requires ValidFrame(f) && f.key.None? && f.opcode in {1, 2}
    requires BodyOffset(|f.payload|) <= k < |RfcEncode(f)|
    ensures var have := k - BodyOffset(|f.payload|);
      && have < |f.payload|
      && CodeDecode(RfcEncode(f)[..k]) == Decoded(f.payload[..if |f.payload| < 65536 then have else Min(127, have)])
  {
    var frame, n, offset := RfcEncode(f)[..k], |f.payload|, BodyOffset(|f.payload|);
    CutFrame(f, k);
    SignedLength(if n < 65536 then n else 0);
    FirstByteFields(f);
    var taken := Min(CodeLength(frame).value.0, k - offset);
    SliceOfSuffix(frame, offset, 0, taken);
    assert f.payload[..k - offset][..taken] == f.payload[..taken];
  }

  lemma {:induction false} XorBitsZero(b: nat, n: nat)
    requires b < Pow2(n)
    ensures XorBits(0, b, n) == b
  {
    if n > 0 {
      XorBitsZero(b / 2, n - 1);
    }
  }

  lemma XorZero(b: Byte)
    ensures Xor(0, b) == b
  {
    EightBits();
    XorBitsZero(b, 8);
  }

  /** Unmasking a masked prefix and the terminator behind it. */
  lemma MaskTerminator(key: seq<Byte>, payload: seq<Byte>, have: nat)
    requires |key| == 4 && have <= |payload|
    ensures Mask(key, Mask(key, payload)[..have] + [0]) == payload[..have] + [key[have % 4]]
  {
    MaskPrefix(key, payload, have);
    XorZero(key[have % 4]);
    var masked := Mask(key, payload)[..have];
    forall i | 0 <= i < have ensures Mask(key, masked + [0])[i] == payload[i] {
      assert Mask(key, masked)[i] == Mask(key, masked + [0])[i];
    }
  }

  /** What the unmasking loop makes of the bytes there are: it stops at the terminator of the string, which
      it unmasks too, or runs on beyond it. */
  function CutMessage(key: seq<Byte>, payload: seq<Byte>, needed: nat, have: nat): Outcome
    requires |key| == 4 && needed <= |payload|
  {
    if needed <= have then Decoded(payload[..needed])
    else if needed == have + 1 then Decoded(payload[..have] + [key[have % 4]])
    else Undefined
  }

  lemma CutUnmask(frame: seq<Byte>, offset: nat, key: seq<Byte>, payload: seq<Byte>, needed: nat, have: nat)
    requires |key| == 4 && needed <= |payload| && have <= |payload| && offset + 4 + have == |frame|
    requires frame[offset..] == key + Mask(key, payload)[..have]
    ensures CodeUnmask(frame, offset, needed) == CutMessage(key, payload, needed, have)
  {
    var masked := Mask(key, payload)[..have];
    if needed <= have {
      assert key + masked == key + masked + [];
      UnmaskReads(frame, offset, key, masked, [], needed);
      assert masked[..needed] == Mask(key, payload)[..needed];
      MaskPrefix(key, payload, needed);
    } else if needed == have + 1 {
      var readable := frame + [0];
      assert readable[offset..] == key + (masked + [0]) by {
        assert readable[offset..] == frame[offset..] + [0];
        Reassociate(key, masked, [0]);
      }
      Halves(key, masked + [0]);
      SliceOfSuffix(readable, offset, 0, 4);
      SliceOfSuffix(readable, offset, 4, 4 + needed);
      assert readable[offset..][4..4 + needed] == masked + [0];
      MaskTerminator(key, payload, have);
    }
  }

  /** A masked frame of which only k bytes, behind the key, were received. */
  lemma CutMaskedFrame(f: Frame, k: nat)
    requires ValidFrame(f) && f.key.Some? && f.opcode in {1, 2}
    requires BodyOffset(|f.payload|) + 4 <= k < |RfcEncode(f)|
    ensures var n, have := |f.payload|, k - BodyOffset(|f.payload|) - 4;
      CodeDecode(RfcEncode(f)[..k])
      == if n >= 65536 then CutMessage(f.key.value, f.payload, 127, have)
         else if LengthIsRead(n) then CutMessage(f.key.value, f.payload, n, have)
         else Undefined
  {
    var frame, n, offset, key := RfcEncode(f)[..k], |f.payload|, BodyOffset(|f.payload|), f.key.value;
    var have := k - offset - 4;
    CutFrame(f, k);
    SignedLength(if n < 65536 then n else 0);
    FirstByteFields(f);
    assert Content(f)[..4 + have] == key + Mask(key, f.payload)[..have];
    if LengthIsRead(n) || n >= 65536 {
      CutUnmask(frame, offset, key, f.payload, if n < 65536 then n else 127, have);
    }
  }
}
