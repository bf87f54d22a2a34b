/** Bytes, exclusive or, and big-endian numbers. */
module Bytes {

  newtype byte = x: int | 0 <= x < 256

  const U64_MOD: nat := 0x1_0000_0000_0000_0000

  /** Bitwise exclusive or of the `width` low bits. */
  function XorBits(a: nat, b: nat, width: nat): (r: nat)
    ensures r < Pow2(width)
  {
    if width == 0 then 0
    else 2 * XorBits(a / 2, b / 2, width - 1) + (a + b) % 2
  }

  function Pow2(k: nat): nat {
    if k == 0 then 1 else 2 * Pow2(k - 1)
  }

  lemma {:induction false} XorBitsTwice(m: nat, a: nat, width: nat)
    requires a < Pow2(width)
    ensures XorBits(m, XorBits(m, a, width), width) == a
  {
    if width > 0 {
      XorBitsTwice(m / 2, a / 2, width - 1);
      LowBit(XorBits(m / 2, a / 2, width - 1), m, a);
    }
  }

  /** Putting a bit below a number, and taking it off again. */
  lemma LowBit(high: nat, m: nat, a: nat)
    ensures var x := 2 * high + (m + a) % 2;
            x / 2 == high && (m + x) % 2 == a % 2
  {
    var x := 2 * high + (m + a) % 2;
    assert x % 2 == (m + a) % 2;
  }

  lemma Pow2Of8()
    ensures Pow2(8) == 256
  {
    assert Pow2(4) == 16;
  }

  function Xor(a: byte, b: byte): byte {
    Pow2Of8();
    XorBits(a as nat, b as nat, 8) as byte
  }

  /** Bit `k` of `x`, counted from the lowest. */
  predicate Bit(x: nat, k: nat) {
    if k == 0 then x % 2 == 1 else Bit(x / 2, k - 1)
  }

  lemma {:induction false} XorBitsBit(a: nat, b: nat, width: nat, k: nat)
    requires k < width
    ensures Bit(XorBits(a, b, width), k) <==> Bit(a, k) != Bit(b, k)
  {
    var high := XorBits(a / 2, b / 2, width - 1);
    LowBit(high, a, b);
    if k == 0 {
      LowBits(a, b);
    } else {
      XorBitsBit(a / 2, b / 2, width - 1, k - 1);
    }
  }

  lemma LowBits(a: nat, b: nat)
    ensures (a + b) % 2 == 1 <==> (a % 2 == 1) != (b % 2 == 1)
  {
  }

  /** Each bit of `r` is set exactly if it is set in one of the two, but not in both. */
  ghost predicate BitwiseXor(r: nat, a: nat, b: nat) {
    forall k :: 0 <= k < 8 ==> (Bit(r, k) <==> Bit(a, k) != Bit(b, k))
  }

  lemma XorIsBitwise(a: byte, b: byte)
    ensures BitwiseXor(Xor(a, b) as nat, a as nat, b as nat)
  {
    hide Bit, XorBits;
    Pow2Of8();
    var x, y: nat := a as nat, b as nat;
    var r := XorBits(x, y, 8);
    forall k | 0 <= k < 8
      ensures Bit(r, k) <==> Bit(x, k) != Bit(y, k)
    {
      XorBitsBit(x, y, 8, k);
    }
  }

  /** Masking twice with the same byte gives the byte back. */
  lemma XorTwice(m: byte, a: byte)
    ensures Xor(m, Xor(m, a)) == a
  {
    Pow2Of8();
    XorBitsTwice(m as nat, a as nat, 8);
  }

  /** The unsigned number whose most significant byte comes first. */
  function BigEndian(s: seq<byte>): nat {
    if |s| == 0 then 0 else BigEndian(s[..|s| - 1]) * 256 + s[|s| - 1] as nat
  }

  /** The `width` low bytes of `n`, most significant first. */
  function ToBigEndian(n: nat, width: nat): (s: seq<byte>)
    ensures |s| == width
  {
    if width == 0 then [] else ToBigEndian(n / 256, width - 1) + [(n % 256) as byte]
  }

  function Pow256(k: nat): (r: nat)
    ensures r > 0
  {
    if k == 0 then 1 else 256 * Pow256(k - 1)
  }

  lemma {:induction false} BigEndianRoundTrip(n: nat, width: nat)
    requires n < Pow256(width)
    ensures BigEndian(ToBigEndian(n, width)) == n
  {
    if width > 0 {
      assert n / 256 < Pow256(width - 1);
      BigEndianRoundTrip(n / 256, width - 1);
      assert ToBigEndian(n, width)[..width - 1] == ToBigEndian(n / 256, width - 1);
    }
  }

  lemma {:induction false} BigEndianBound(s: seq<byte>)
    ensures BigEndian(s) < Pow256(|s|)
  {
    if |s| > 0 {
      BigEndianBound(s[..|s| - 1]);
    }
  }

  lemma {:induction false} ToBigEndianOf(s: seq<byte>)
    ensures ToBigEndian(BigEndian(s), |s|) == s
  {
    if |s| > 0 {
      var t := s[..|s| - 1];
      assert BigEndian(s) / 256 == BigEndian(t);
      ToBigEndianOf(t);
      assert s == t + [s[|s| - 1]];
    }
  }

  lemma Pow256Values()
    ensures Pow256(1) == 256 && Pow256(2) == 0x1_0000 && Pow256(8) == U64_MOD
  {
    assert Pow256(4) == 0x1_0000_0000;
    assert Pow256(6) == 0x1_0000_0000_0000;
  }

  lemma Regroup<T>(a: seq<T>, b: seq<T>, c: seq<T>)
    ensures a + b + c == a + (b + c)
  {
  }

  /** All the pieces in order, as one sequence. */
  function Concat<T>(pieces: seq<seq<T>>): seq<T> {
    if |pieces| == 0 then [] else pieces[0] + Concat(pieces[1..])
  }

  lemma {:induction false} ConcatLast<T>(pieces: seq<seq<T>>, last: seq<T>)
    ensures Concat(pieces + [last]) == Concat(pieces) + last
  {
    if |pieces| == 0 {
      assert pieces + [last] == [last] && [last][1..] == [];
    } else {
      assert (pieces + [last])[1..] == pieces[1..] + [last];
      ConcatLast(pieces[1..], last);
      Regroup(pieces[0], Concat(pieces[1..]), last);
    }
  }

  function Ascii(t: string): (s: seq<byte>)
    ensures |s| == |t|
  {
    seq(|t|, i requires 0 <= i < |t| => (t[i] as int % 128) as byte)
  }
}
