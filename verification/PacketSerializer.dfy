/** Fields copied in and out of byte buffers with `memcpy`, read back through one moving offset. */
module PacketSerialization {
  import opened Bytes
  import opened Wrappers

  /** The byte order of the host, which `memcpy` exposes. */
  datatype Order = Little | Big

  /** Bytes in a 32-bit word. */
  const SIZE: nat := 4

  const WORD := 0x1_0000_0000

  /** A double is eight opaque bytes here. */
  datatype Field = Text(chars: seq<Byte>) | Word(value: nat) | Double(bits: seq<Byte>)

  datatype Kind = IsText | IsWord | IsDouble

  function WordBytes(o: Order, v: nat): (bs: seq<Byte>)
    ensures |bs| == 4
  {
    if o == Little then LittleEndian(v, SIZE) else BigEndian(v, SIZE)
  }

  function FromWord(o: Order, bs: seq<Byte>): nat {
    if o == Little then FromLittle(bs) else FromBig(bs)
  }

  lemma WordRoundTrip(o: Order, v: nat)
    requires v < WORD
    ensures FromWord(o, WordBytes(o, v)) == v
  {
    Powers();
    LittleRoundTrip(v, 4);
    BigRoundTrip(v, 4);
  }

  predicate ValidField(f: Field) {
    match f
    case Text(_) => true
    case Word(v) => v < WORD
    case Double(bits) => |bits| == 8
  }

  /** A string's length must fit its 32-bit prefix. */
  predicate Survives(f: Field) {
    ValidField(f) && (f.Text? ==> |f.chars| < WORD)
  }

  function KindOf(f: Field): Kind {
    match f
    case Text(_) => IsText
    case Word(_) => IsWord
    case Double(_) => IsDouble
  }

  /** The bytes of one field; the length of a string is cast to 32 bits. */
  function Encode(o: Order, f: Field): seq<Byte> {
    match f
    case Text(chars) => WordBytes(o, |chars| % WORD) + chars
    case Word(v) => WordBytes(o, v)
    case Double(bits) => bits
  }

  /** The field at an offset and the offset behind it; None where the read would leave the buffer. */
  function ReadAt(o: Order, data: seq<Byte>, offset: nat, kind: Kind): (r: Option<(Field, nat)>)
    ensures r.Some? ==> offset <= r.value.1 <= |data| && KindOf(r.value.0) == kind
  {
    match kind
    case IsText =>
      if offset + 4 > |data| then None
      else
        var len := FromWord(o, data[offset..offset + 4]);
        if offset + 4 + len > |data| then None
        else Some((Text(data[offset + 4..offset + 4 + len]), offset + 4 + len))
    case IsWord =>
      if offset + 4 > |data| then None else Some((Word(FromWord(o, data[offset..offset + 4])), offset + 4))
    case IsDouble =>
      if offset + 8 > |data| then None else Some((Double(data[offset..offset + 8]), offset + 8))
  }

  /** The source checks no bounds; its callers must leave a whole field at the offset. */
  method DeserializeString(o: Order, data: seq<Byte>, offset: nat) returns (str: seq<Byte>, next: nat)
    requires ReadAt(o, data, offset, IsText).Some?
    ensures ReadAt(o, data, offset, IsText) == Some((Text(str), next))
    ensures next == offset + 4 + |str| && str == data[offset + 4..next]
    ensures ReadAt(o, data, offset, IsWord) == Some((Word(|str|), offset + 4))
  {
    var len := FromWord(o, data[offset..offset + 4]);
    next := offset + 4;
    str := data[next..next + len];
    next := next + len;
  }

  method DeserializeUInt32(o: Order, data: seq<Byte>, offset: nat) returns (value: nat, next: nat)
    requires ReadAt(o, data, offset, IsWord).Some?
    ensures ReadAt(o, data, offset, IsWord) == Some((Word(value), next)) && next == offset + 4
    ensures o == Little ==> value == data[offset] as int + 0x100 * data[offset + 1] as int
                                     + 0x1_0000 * data[offset + 2] as int + 0x100_0000 * data[offset + 3] as int
    ensures o == Big ==> value == data[offset + 3] as int + 0x100 * data[offset + 2] as int
                                  + 0x1_0000 * data[offset + 1] as int + 0x100_0000 * data[offset] as int
  {
    FourBytesValue(data[offset..offset + 4]);
    value, next := FromWord(o, data[offset..offset + 4]), offset + 4;
  }

  method DeserializeDouble(o: Order, data: seq<Byte>, offset: nat) returns (bits: seq<Byte>, next: nat)
    requires ReadAt(o, data, offset, IsDouble).Some?
    ensures ReadAt(o, data, offset, IsDouble) == Some((Double(bits), next))
    ensures next == offset + 8 && bits == data[offset..next]
  {
    bits, next := data[offset..offset + 8], offset + 8;
  }

  // ----- Round trips -----

  lemma Middle(a: seq<Byte>, b: seq<Byte>, c: seq<Byte>)
    ensures (a + b + c)[|a|..|a| + |b|] == b
  {
  }

  lemma Regroup(a: seq<Byte>, b: seq<Byte>, c: seq<Byte>, d: seq<Byte>)
    ensures a + (b + c) + d == a + b + (c + d) == a + b + c + d
  {
  }

  lemma ReadText(o: Order, before: seq<Byte>, chars: seq<Byte>, after: seq<Byte>)
    ensures ReadAt(o, before + Encode(o, Text(chars)) + after, |before|, IsText)
            == Some((Text(chars[..|chars| % WORD]), |before| + 4 + |chars| % WORD))
  {
    var len := |chars| % WORD;
    var w, front, back := WordBytes(o, len), chars[..len], chars[len..];
    var data := before + Encode(o, Text(chars)) + after;
    WordRoundTrip(o, len);
    assert data == before + w + (chars + after) by {
      Regroup(before, w, chars, after);
    }
    Middle(before, w, chars + after);
    assert data == before + w + front + (back + after) by {
      SplitAt(chars, len);
      Regroup(before + w, front, back, after);
      Regroup(before, w, chars, after);
    }
    Middle(before + w, front, back + after);
  }

  /** One field, anywhere in a buffer. A string comes back cut to its length modulo 2^32. */
  lemma ReadEncoded(o: Order, before: seq<Byte>, f: Field, after: seq<Byte>)
    requires ValidField(f)
    ensures ReadAt(o, before + Encode(o, f) + after, |before|, KindOf(f))
            == match f
               case Text(chars) => Some((Text(chars[..|chars| % WORD]), |before| + 4 + |chars| % WORD))
               case Word(_) => Some((f, |before| + 4))
               case Double(_) => Some((f, |before| + 8))
  {
    match f
    case Text(chars) =>
      ReadText(o, before, chars, after);
    case Word(v) =>
      WordRoundTrip(o, v);
      Middle(before, WordBytes(o, v), after);
    case Double(bits) =>
      Middle(before, bits, after);
  }

  /** A field survives exactly if it is not a string of 2^32 bytes or more. */
  lemma FieldRoundTripIff(o: Order, before: seq<Byte>, f: Field, after: seq<Byte>)
    requires ValidField(f)
    ensures ReadAt(o, before + Encode(o, f) + after, |before|, KindOf(f)) == Some((f, |before| + |Encode(o, f)|))
            <==> (f.Text? ==> |f.chars| < WORD)
  {
    ReadEncoded(o, before, f, after);
    if f.Text? {
      assert f.chars[..|f.chars|] == f.chars;
      assert |f.chars| < WORD <==> |f.chars| % WORD == |f.chars|;
    }
  }

  /** The case of a buffer that holds just the field. */
  lemma AloneRoundTripIff(o: Order, f: Field)
    requires ValidField(f)
    ensures ReadAt(o, Encode(o, f), 0, KindOf(f)) == Some((f, |Encode(o, f)|)) <==> (f.Text? ==> |f.chars| < WORD)
  {
    FieldRoundTripIff(o, [], f, []);
    assert [] + Encode(o, f) + [] == Encode(o, f);
  }

  method SerializeString(o: Order, str: seq<Byte>) returns (result: seq<Byte>)
    ensures result == Encode(o, Text(str)) && |result| == 4 + |str| && result[4..] == str
    ensures result[..4] == Encode(o, Word(|str| % 0x1_0000_0000))
    ensures ReadAt(o, result, 0, IsText) == Some((Text(str), |result|)) <==> |str| < WORD
  {
    var len := |str| % WORD;
    result := WordBytes(o, len);
    result := result + str;
    AloneRoundTripIff(o, Text(str));
  }

  method SerializeUInt32(o: Order, value: nat) returns (result: seq<Byte>)
    requires value < WORD
    ensures result == Encode(o, Word(value)) && ReadAt(o, result, 0, IsWord) == Some((Word(value), 4))
    ensures o == Little ==>
      result == [value % 256, value / 0x100 % 256, value / 0x1_0000 % 256, value / 0x100_0000 % 256]
    ensures o == Big ==>
      result == [value / 0x100_0000 % 256, value / 0x1_0000 % 256, value / 0x100 % 256, value % 256]
  {
    FourBytes(value);
    result := WordBytes(o, value);
    AloneRoundTripIff(o, Word(value));
  }

  method SerializeDouble(o: Order, bits: seq<Byte>) returns (result: seq<Byte>)
    requires |bits| == 8
    ensures result == bits == Encode(o, Double(bits)) && ReadAt(o, result, 0, IsDouble) == Some((Double(bits), 8))
  {
    result := bits;
    AloneRoundTripIff(o, Double(bits));
  }

  function EncodeAll(o: Order, fs: seq<Field>): seq<Byte> {
    if fs == [] then [] else Encode(o, fs[0]) + EncodeAll(o, fs[1..])
  }

  function KindsOf(fs: seq<Field>): seq<Kind> {
    if fs == [] then [] else [KindOf(fs[0])] + KindsOf(fs[1..])
  }

  /** Reads one field per kind with a shared offset. */
  function ReadAll(o: Order, data: seq<Byte>, offset: nat, kinds: seq<Kind>): Option<(seq<Field>, nat)>
    decreases |kinds|
  {
    if kinds == [] then Some(([], offset))
    else
      match ReadAt(o, data, offset, kinds[0])
      case None => None
      case Some((f, next)) =>
        match ReadAll(o, data, next, kinds[1..])
        case None => None
        case Some((fs, end)) => Some(([f] + fs, end))
  }

  /** `block` lies in `data` from `at` on. */
  predicate LiesAt(data: seq<Byte>, at: nat, block: seq<Byte>) {
    at + |block| <= |data| && data[at..at + |block|] == block
  }

  lemma SplitBlock(data: seq<Byte>, at: nat, head: seq<Byte>, tail: seq<Byte>)
    requires LiesAt(data, at, head + tail)
    ensures data == data[..at] + head + data[at + |head|..]
    ensures LiesAt(data, at + |head|, tail)
  {
    var next := at + |head|;
    var end := next + |tail|;
    assert data[at..end][..|head|] == head && data[at..end][|head|..] == tail;
    assert data[at..next] == head && data[next..end] == tail;
  }

  /** The rest of a block lies where its first field ends. */
  lemma RestOfBlock(o: Order, data: seq<Byte>, at: nat, next: nat, fs: seq<Field>)
    requires fs != [] && next == at + |Encode(o, fs[0])| && LiesAt(data, at, EncodeAll(o, fs))
    ensures LiesAt(data, next, EncodeAll(o, fs[1..]))
    ensures at + |EncodeAll(o, fs)| == next + |EncodeAll(o, fs[1..])|
  {
    SplitBlock(data, at, Encode(o, fs[0]), EncodeAll(o, fs[1..]));
  }

  lemma ReadBetween(o: Order, data: seq<Byte>, before: seq<Byte>, f: Field, after: seq<Byte>)
    requires Survives(f) && data == before + Encode(o, f) + after
    ensures ReadAt(o, data, |before|, KindOf(f)) == Some((f, |before| + |Encode(o, f)|))
  {
    FieldRoundTripIff(o, before, f, after);
  }

  /** The first field of a block is read, up to the rest of the block. */
  lemma HeadOfBlock(o: Order, data: seq<Byte>, at: nat, next: nat, fs: seq<Field>)
    requires fs != [] && Survives(fs[0]) && next == at + |Encode(o, fs[0])| && LiesAt(data, at, EncodeAll(o, fs))
    ensures ReadAt(o, data, at, KindOf(fs[0])) == Some((fs[0], next))
  {
    SplitBlock(data, at, Encode(o, fs[0]), EncodeAll(o, fs[1..]));
    ReadBetween(o, data, data[..at], fs[0], data[next..]);
  }

  /** A block is read if the rest of it is. */
  lemma ReadCons(o: Order, data: seq<Byte>, at: nat, next: nat, end: nat, fs: seq<Field>)
    requires fs != [] && Survives(fs[0]) && next == at + |Encode(o, fs[0])|
    requires LiesAt(data, at, EncodeAll(o, fs))
    requires ReadAll(o, data, next, KindsOf(fs[1..])) == Some((fs[1..], end))
    ensures ReadAll(o, data, at, KindsOf(fs)) == Some((fs, end))
  {
    HeadOfBlock(o, data, at, next, fs);
    assert KindsOf(fs)[1..] == KindsOf(fs[1..]);
    assert [fs[0]] + fs[1..] == fs;
  }

  /** Any list of fields written in order comes back in order, wherever the block lies in a larger
      buffer, and the offset ends behind the block. */
  lemma {:induction false} BlockRoundTrip(o: Order, data: seq<Byte>, at: nat, fs: seq<Field>)
    requires forall i :: 0 <= i < |fs| ==> Survives(fs[i])
    requires LiesAt(data, at, EncodeAll(o, fs))
    ensures ReadAll(o, data, at, KindsOf(fs)) == Some((fs, at + |EncodeAll(o, fs)|))
    decreases |fs|, 1
  {
    if fs != [] {
      BlockStep(o, data, at, fs);
    }
  }

  lemma {:induction false} BlockStep(o: Order, data: seq<Byte>, at: nat, fs: seq<Field>)
    requires fs != [] && forall i :: 0 <= i < |fs| ==> Survives(fs[i])
    requires LiesAt(data, at, EncodeAll(o, fs))
    ensures ReadAll(o, data, at, KindsOf(fs)) == Some((fs, at + |EncodeAll(o, fs)|))
    decreases |fs|, 0
  {
    var next := at + |Encode(o, fs[0])|;
    RestOfBlock(o, data, at, next, fs);
    BlockRoundTrip(o, data, next, fs[1..]);
    ReadCons(o, data, at, next, at + |EncodeAll(o, fs)|, fs);
  }

}
