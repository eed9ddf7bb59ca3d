/** Bytes and fixed-width numbers, in both byte orders. */
module Bytes {

  type Byte = b: int | 0 <= b < 256

  lemma Halves(a: seq<Byte>, b: seq<Byte>)
    ensures (a + b)[..|a|] == a && (a + b)[|a|..] == b
  {
  }

  lemma SplitAt(s: seq<Byte>, n: nat)
    requires n <= |s|
    ensures s == s[..n] + s[n..]
  {
  }

  lemma Reassociate(a: seq<Byte>, b: seq<Byte>, c: seq<Byte>)
    ensures a + (b + c) == a + b + c
  {
  }

  lemma SliceOfTail(s: seq<Byte>, a: nat, n: nat)
    requires a + n <= |s|
    ensures s[a..a + n] == s[a..][..n]
  {
  }

  lemma SliceInFront(s: seq<Byte>, t: seq<Byte>, a: nat, b: nat)
    requires a <= b <= |s|
    ensures (s + t)[a..b] == s[a..b]
  {
  }

  lemma SliceOfSuffix(s: seq<Byte>, k: nat, a: nat, b: nat)
    requires a <= b && k + b <= |s|
    ensures s[k..][a..b] == s[k + a..k + b]
  {
  }

  function Min(a: nat, b: nat): nat {
    if a < b then a else b
  }

  function Pow256(n: nat): (p: nat)
    ensures p > 0
  {
    if n == 0 then 1 else 256 * Pow256(n - 1)
  }

  /** The low n bytes of v, most significant first. */
  function BigEndian(v: nat, n: nat): (bs: seq<Byte>)
    ensures |bs| == n
  {
    if n == 0 then [] else BigEndian(v / 256, n - 1) + [v % 256]
  }

  function FromBig(bs: seq<Byte>): nat {
    if bs == [] then 0 else 256 * FromBig(bs[..|bs| - 1]) + bs[|bs| - 1]
  }

  /** The low n bytes of v, least significant first. */
  function LittleEndian(v: nat, n: nat): (bs: seq<Byte>)
    ensures |bs| == n
  {
    if n == 0 then [] else [v % 256] + LittleEndian(v / 256, n - 1)
  }

  function FromLittle(bs: seq<Byte>): nat {
    if bs == [] then 0 else bs[0] + 256 * FromLittle(bs[1..])
  }

  lemma {:induction false} BigRoundTrip(v: nat, n: nat)
    requires v < Pow256(n)
    ensures FromBig(BigEndian(v, n)) == v
  {
    if n > 0 {
      BigRoundTrip(v / 256, n - 1);
    }
  }

  lemma {:induction false} BigCanonical(bs: seq<Byte>)
    ensures FromBig(bs) < Pow256(|bs|) && BigEndian(FromBig(bs), |bs|) == bs
    decreases |bs|
  {
    if bs != [] {
      BigCanonical(bs[..|bs| - 1]);
      assert FromBig(bs) / 256 == FromBig(bs[..|bs| - 1]) && FromBig(bs) % 256 == bs[|bs| - 1];
    }
  }

  lemma {:induction false} LittleRoundTrip(v: nat, n: nat)
    requires v < Pow256(n)
    ensures FromLittle(LittleEndian(v, n)) == v
  {
    if n > 0 {
      LittleRoundTrip(v / 256, n - 1);
      assert LittleEndian(v, n)[1..] == LittleEndian(v / 256, n - 1);
    }
  }

  lemma {:induction false} LittleCanonical(bs: seq<Byte>)
    ensures FromLittle(bs) < Pow256(|bs|) && LittleEndian(FromLittle(bs), |bs|) == bs
  {
    if bs != [] {
      LittleCanonical(bs[1..]);
      assert FromLittle(bs) / 256 == FromLittle(bs[1..]) && FromLittle(bs) % 256 == bs[0];
    }
  }

  lemma Distribute(k: nat, x: nat, y: nat, z: nat)
    ensures k * (x * y + z) == x * (k * y) + k * z == k * x * y + k * z
  {
  }

  /** Which end comes first: the weight of a byte grows by 256 towards the front. */
  lemma {:induction false} BigConcat(a: seq<Byte>, b: seq<Byte>)
    ensures FromBig(a + b) == FromBig(a) * Pow256(|b|) + FromBig(b)
    decreases |b|
  {
    if b == [] {
      assert a + b == a;
    } else {
      var front, last := b[..|b| - 1], b[|b| - 1];
      assert (a + b)[..|a + b| - 1] == a + front;
      BigConcat(a, front);
      Distribute(256, FromBig(a), Pow256(|front|), FromBig(front));
    }
  }

  /** And here towards the back. */
  lemma {:induction false} LittleConcat(a: seq<Byte>, b: seq<Byte>)
    ensures FromLittle(a + b) == FromLittle(a) + Pow256(|a|) * FromLittle(b)
  {
    if a == [] {
      assert a + b == b;
    } else {
      assert (a + b)[1..] == a[1..] + b;
      LittleConcat(a[1..], b);
      Distribute(256, Pow256(|a| - 1), FromLittle(b), FromLittle(a[1..]));
    }
  }

  lemma OneByte(b: Byte)
    ensures FromBig([b]) == b == FromLittle([b])
  {
    assert [b][..0] == [] && [b][1..] == [];
  }

  /** The four bytes of a 32-bit number, in both orders. */
  lemma FourBytes(v: nat)
    ensures LittleEndian(v, 4) == [v % 256, v / 0x100 % 256, v / 0x1_0000 % 256, v / 0x100_0000 % 256]
    ensures BigEndian(v, 4) == [v / 0x100_0000 % 256, v / 0x1_0000 % 256, v / 0x100 % 256, v % 256]
  {
    var v1, v2, v3 := v / 0x100, v / 0x1_0000, v / 0x100_0000;
    assert v1 / 256 == v2 && v2 / 256 == v3;
    assert LittleEndian(v3, 1) == [v3 % 256] == BigEndian(v3, 1);
    assert LittleEndian(v2, 2) == [v2 % 256, v3 % 256] && BigEndian(v2, 2) == [v3 % 256, v2 % 256];
    assert LittleEndian(v1, 3) == [v1 % 256, v2 % 256, v3 % 256] && BigEndian(v1, 3) == [v3 % 256, v2 % 256, v1 % 256];
  }

  lemma Powers()
    ensures Pow256(1) == 0x100 && Pow256(2) == 0x1_0000 && Pow256(4) == 0x1_0000_0000
    ensures Pow256(8) == 0x1_0000_0000_0000_0000
  {
    assert Pow256(2) == 256 * Pow256(1);
    assert Pow256(3) == 256 * Pow256(2);
    assert Pow256(4) == 256 * Pow256(3);
    assert Pow256(5) == 256 * Pow256(4);
    assert Pow256(6) == 256 * Pow256(5);
    assert Pow256(7) == 256 * Pow256(6);
  }

  lemma FourLittle(b0: Byte, b1: Byte, b2: Byte, b3: Byte)
    ensures FromLittle([b0, b1, b2, b3]) == b0 as int + 0x100 * b1 as int + 0x1_0000 * b2 as int + 0x100_0000 * b3 as int
  {
    assert [b0, b1, b2, b3][1..] == [b1, b2, b3] && [b1, b2, b3][1..] == [b2, b3] && [b2, b3][1..] == [b3];
    OneByte(b3);
    assert FromLittle([b2, b3]) == b2 as int + 256 * b3 as int;
    assert FromLittle([b1, b2, b3]) == b1 as int + 256 * FromLittle([b2, b3]);
  }

  lemma FourBig(b0: Byte, b1: Byte, b2: Byte, b3: Byte)
    ensures FromBig([b0, b1, b2, b3]) == b3 as int + 0x100 * b2 as int + 0x1_0000 * b1 as int + 0x100_0000 * b0 as int
  {
    assert [b0, b1, b2, b3][..3] == [b0, b1, b2] && [b0, b1, b2][..2] == [b0, b1] && [b0, b1][..1] == [b0];
    OneByte(b0);
    assert FromBig([b0, b1]) == 256 * b0 as int + b1 as int;
    assert FromBig([b0, b1, b2]) == 256 * FromBig([b0, b1]) + b2 as int;
  }

  lemma FourBytesValue(bs: seq<Byte>)
    requires |bs| == 4
    ensures FromLittle(bs) == bs[0] as int + 0x100 * bs[1] as int + 0x1_0000 * bs[2] as int + 0x100_0000 * bs[3] as int
    ensures FromBig(bs) == bs[3] as int + 0x100 * bs[2] as int + 0x1_0000 * bs[1] as int + 0x100_0000 * bs[0] as int
  {
    assert bs == [bs[0], bs[1], bs[2], bs[3]];
    FourLittle(bs[0], bs[1], bs[2], bs[3]);
    FourBig(bs[0], bs[1], bs[2], bs[3]);
  }

  /** v shifted right by n whole bytes; a negative number is rounded towards minus infinity. */
  function ShiftRight(v: int, n: nat): (r: int)
    ensures v >= 0 ==> r >= 0
  {
    if n == 0 then v else ShiftRight(v, n - 1) / 256
  }
}
