/** WebSocket frames as a server sends them (section 5.2 of RFC 6455). */
module Frames {
  import opened Bytes

  const CONT: byte := 0x0
  const TEXT: byte := 0x1
  const BINARY: byte := 0x2
  const CLOSE: byte := 0x8
  const PING: byte := 0x9
  const PONG: byte := 0xA

  datatype Frame = Frame(fin: bool, op: byte, payload: seq<byte>)

  /** `OutOfBounds` is the one success the source cannot keep: the length is so close to 2^64 that
      adding the header size wraps around, the bytes are consumed as far as the wrapped sum says,
      and the payload lies outside the input. */
  datatype Verdict =
    | Parsed(frame: Frame, consumed: nat)
    | NeedMore
    | MaskedServer
    | BadReserved
    | OutOfBounds(fin: bool, op: byte, len: nat, wrapped: nat)

  // The bit fields of the first two bytes.
  predicate FinBit(b0: byte) { b0 >= 0x80 }
  function Rsv(b0: byte): byte { b0 / 16 % 8 }
  function ToOp(b0: byte): byte { b0 % 16 }
  predicate Masked(b1: byte) { b1 >= 0x80 }
  function Len7(b1: byte): byte { b1 % 128 }

  datatype Header = Incomplete | Refused(verdict: Verdict) | Header(size: nat, len: nat)

  function ReadHeader(s: seq<byte>): Header {
    if |s| < 2 then Incomplete
    else if Rsv(s[0]) != 0 then Refused(BadReserved)
    else if Masked(s[1]) then Refused(MaskedServer)
    else if Len7(s[1]) == 126 then
      if |s| < 4 then Incomplete else Header.Header(4, BigEndian(s[2..4]))
    else if Len7(s[1]) == 127 then
      if |s| < 10 then Incomplete else Header.Header(10, BigEndian(s[2..10]))
    else Header.Header(2, Len7(s[1]) as nat)
  }

  /** The meaning of a byte sequence as the start of a frame. */
  function Parse(s: seq<byte>): Verdict {
    match ReadHeader(s)
    case Incomplete => NeedMore
    case Refused(verdict) => verdict
    case Header(size, len) =>
      if |s| < (size + len) % U64_MOD then NeedMore
      else if U64_MOD <= size + len then
        OutOfBounds(FinBit(s[0]), ToOp(s[0]), len, (size + len) % U64_MOD)
      else Parsed(Frame(FinBit(s[0]), ToOp(s[0]), s[size..size + len]), size + len)
  }

  /** The single-pass parser: the 64-bit length is shifted in byte by byte. */
  method ParseFrame(input: seq<byte>) returns (verdict: Verdict)
    ensures verdict == Parse(input)
  {
    if |input| < 2 {
      return NeedMore;
    }
    var b0, b1 := input[0], input[1];
    if Rsv(b0) != 0 {
      return BadReserved;
    }
    if Masked(b1) {
      return MaskedServer;
    }
    var len, hdr: nat := Len7(b1) as nat, 2;
    if len == 126 {
      if |input| < 4 {
        return NeedMore;
      }
      len := input[2] as nat * 256 + input[3] as nat;
      hdr := hdr + 2;
      TwoBytes(input[2..4]);
    } else if len == 127 {
      if |input| < 10 {
        return NeedMore;
      }
      len := ReadLength(input[2..10]);
      hdr := hdr + 8;
    }
    if |input| < (hdr + len) % U64_MOD {
      return NeedMore;
    }
    if U64_MOD <= hdr + len {
      return OutOfBounds(FinBit(b0), ToOp(b0), len, (hdr + len) % U64_MOD);
    }
    return Parsed(Frame(FinBit(b0), ToOp(b0), input[hdr..hdr + len]), hdr + len);
  }

  /** Eight shifts of a 64-bit accumulator, each dropping its overflow: none ever does. */
  method ReadLength(field: seq<byte>) returns (x: nat)
    requires |field| == 8
    ensures x == BigEndian(field)
  {
    x := 0;
    for i := 0 to 8
      invariant x == BigEndian(field[..i])
    {
      ShiftFits(field[..i]);
      assert field[..i + 1][..i] == field[..i];
      x := x * 256 % U64_MOD + field[i] as nat;
    }
    assert field[..8] == field;
  }

  lemma ShiftFits(s: seq<byte>)
    requires |s| < 8
    ensures BigEndian(s) * 256 < U64_MOD
  {
    BigEndianBound(s);
    Pow256Values();
    Pow256Grows(|s|, 7);
  }

  lemma {:induction false} Pow256Grows(i: nat, j: nat)
    requires i <= j
    ensures Pow256(i) <= Pow256(j)
    decreases j - i
  {
    if i < j {
      Pow256Grows(i + 1, j);
    }
  }

  lemma TwoBytes(s: seq<byte>)
    requires |s| == 2
    ensures BigEndian(s) == s[0] as nat * 256 + s[1] as nat
  {
    assert s[..1][..0] == [];
    assert BigEndian(s[..1]) == s[0] as nat;
  }

  /** A frame a server may send: four opcode bits, and a length whose top bit is clear. */
  ghost predicate Sendable(f: Frame) {
    f.op < 16 && |f.payload| < U64_MOD / 2
  }

  function FirstByte(f: Frame): (b: byte)
    requires f.op < 16
    ensures Rsv(b) == 0 && FinBit(b) == f.fin && ToOp(b) == f.op
  {
    (if f.fin then 0x80 else 0) + f.op
  }

  /** The length field in its shortest form. */
  function LengthField(n: nat): (s: seq<byte>)
    ensures |s| == if n < 126 then 1 else if n < 0x1_0000 then 3 else 9
  {
    if n < 126 then [n as byte]
    else if n < 0x1_0000 then [126] + ToBigEndian(n, 2)
    else [127] + ToBigEndian(n, 8)
  }

  function Encode(f: Frame): seq<byte>
    requires f.op < 16
  {
    [FirstByte(f)] + LengthField(|f.payload|) + f.payload
  }

  /** Reading the header of an encoding takes exactly its header bytes, whatever follows. */
  lemma HeaderOfEncoding(b0: byte, n: nat, rest: seq<byte>)
    requires Rsv(b0) == 0 && n < U64_MOD / 2
    ensures ReadHeader([b0] + LengthField(n) + rest) == Header.Header(1 + |LengthField(n)|, n)
  {
    var s := [b0] + LengthField(n) + rest;
    Pow256Values();
    if n < 126 {
    } else if n < 0x1_0000 {
      BigEndianRoundTrip(n, 2);
      assert s[2..4] == ToBigEndian(n, 2);
    } else {
      BigEndianRoundTrip(n, 8);
      assert s[2..10] == ToBigEndian(n, 8);
    }
  }

  /** Parsing an encoding gives the frame back and consumes exactly its bytes. */
  lemma ParseEncode(f: Frame, rest: seq<byte>)
    requires Sendable(f)
    ensures Parse(Encode(f) + rest) == Parsed(f, |Encode(f)|)
  {
    hide LengthField, ReadHeader;
    var head := [FirstByte(f)] + LengthField(|f.payload|);
    var s := Encode(f) + rest;
    assert s == head + (f.payload + rest);
    HeaderOfEncoding(FirstByte(f), |f.payload|, f.payload + rest);
    assert s[|head|..|head| + |f.payload|] == f.payload;
  }

  lemma HeaderStable(s: seq<byte>, t: seq<byte>)
    requires ReadHeader(s) != Incomplete
    ensures ReadHeader(s + t) == ReadHeader(s)
  {
    if |s| >= 4 {
      assert (s + t)[2..4] == s[2..4];
    }
    if |s| >= 10 {
      assert (s + t)[2..10] == s[2..10];
    }
  }

  /** Every verdict but "need more" is final: later bytes cannot change it. */
  lemma ParseStable(s: seq<byte>, t: seq<byte>)
    requires Parse(s) != NeedMore
    ensures Parse(s + t) == Parse(s)
  {
    hide ReadHeader;
    HeaderStable(s, t);
    assert |s| >= 1 by { HeaderNeedsTwo(s); }
    match ReadHeader(s)
    case Header(size, len) =>
      if size + len <= |s| {
        assert (s + t)[size..size + len] == s[size..size + len];
      }
    case _ =>
  }

  lemma HeaderNeedsTwo(s: seq<byte>)
    ensures ReadHeader(s) != Incomplete ==> |s| >= 2
    ensures ReadHeader(s).Header? ==> 2 <= ReadHeader(s).size <= |s|
    ensures ReadHeader(s).Refused? ==> ReadHeader(s).verdict in {MaskedServer, BadReserved}
  {
  }

  /** A parsed frame uses at least its two header bytes and no more than there are. */
  lemma ParsedBounds(s: seq<byte>)
    requires Parse(s).Parsed?
    ensures 2 <= Parse(s).consumed <= |s|
    ensures Parse(s).frame.op < 16 && |Parse(s).frame.payload| <= |s|
  {
    HeaderNeedsTwo(s);
  }

  /** No strict prefix of an encoding is mistaken for a frame or refused. */
  lemma PrefixNeedsMore(f: Frame, k: nat)
    requires Sendable(f) && k < |Encode(f)|
    ensures Parse(Encode(f)[..k]) == NeedMore
  {
    var s := Encode(f);
    if Parse(s[..k]) != NeedMore {
      ParseStable(s[..k], s[k..]);
      assert s[..k] + s[k..] == s == s + [];
      ParseEncode(f, []);
      ParsedBounds(s[..k]);
    }
  }

  /** On the wire, written out: a final unmasked frame with a seven-bit, a 16-bit and a 64-bit length. */
  lemma ParseShort(op: byte, payload: seq<byte>, rest: seq<byte>)
    requires op < 16 && |payload| <= 125
    ensures Parse([0x80 + op, |payload| as byte] + payload + rest) == Parsed(Frame(true, op, payload), 2 + |payload|)
  {
    var s := [0x80 + op, |payload| as byte] + payload + rest;
    assert s[2..2 + |payload|] == payload;
  }

  lemma ParseFirst(op: byte, payload: seq<byte>, rest: seq<byte>)
    requires op < 16 && |payload| <= 125
    ensures Parse([op, |payload| as byte] + payload + rest) == Parsed(Frame(false, op, payload), 2 + |payload|)
  {
    var s := [op, |payload| as byte] + payload + rest;
    assert s[2..2 + |payload|] == payload;
  }

  lemma ParseMedium(op: byte, hi: byte, lo: byte, payload: seq<byte>, rest: seq<byte>)
    requires op < 16 && |payload| == 256 * hi as nat + lo as nat
    ensures Parse([0x80 + op, 126, hi, lo] + payload + rest) == Parsed(Frame(true, op, payload), 4 + |payload|)
  {
    var s := [0x80 + op, 126, hi, lo] + payload + rest;
    assert s[2..4] == [hi, lo];
    TwoBytes([hi, lo]);
    assert s[4..4 + |payload|] == payload;
  }

  lemma ParseLong(op: byte, b: byte, c: byte, d: byte, e: byte, payload: seq<byte>, rest: seq<byte>)
    requires op < 16
    requires |payload| == 0x100_0000 * b as nat + 0x1_0000 * c as nat + 0x100 * d as nat + e as nat
    ensures Parse([0x80 + op, 127, 0, 0, 0, 0, b, c, d, e] + payload + rest)
            == Parsed(Frame(true, op, payload), 10 + |payload|)
  {
    hide BigEndian;
    var s := [0x80 + op, 127, 0, 0, 0, 0, b, c, d, e] + payload + rest;
    assert s[2..10] == [0, 0, 0, 0, b, c, d, e];
    EightBytes(b, c, d, e);
    assert s[10..10 + |payload|] == payload;
  }

  lemma EightBytes(b: byte, c: byte, d: byte, e: byte)
    ensures BigEndian([0, 0, 0, 0, b, c, d, e])
            == 0x100_0000 * b as nat + 0x1_0000 * c as nat + 0x100 * d as nat + e as nat
  {
    var s: seq<byte> := [0, 0, 0, 0, b, c, d, e];
    assert s[..7] == [0, 0, 0, 0, b, c, d] && s[..7][..6] == [0, 0, 0, 0, b, c];
    assert [0, 0, 0, 0, b, c][..5] == [0, 0, 0, 0, b] && [0, 0, 0, 0, b][..4] == [0, 0, 0, 0];
    assert BigEndian([0, 0, 0, 0]) == 0 by { Zeros(); }
    assert BigEndian([0, 0, 0, 0, b]) == b as nat;
    assert BigEndian([0, 0, 0, 0, b, c]) == 0x100 * b as nat + c as nat;
    assert BigEndian([0, 0, 0, 0, b, c, d]) == 0x1_0000 * b as nat + 0x100 * c as nat + d as nat;
  }

  lemma Zeros()
    ensures BigEndian([0, 0, 0, 0]) == 0
  {
    var s: seq<byte> := [0, 0, 0, 0];
    assert s[..3] == [0, 0, 0] && s[..3][..2] == [0, 0] && [0 as byte, 0][..1] == [0] && [0 as byte][..0] == [];
    assert BigEndian([0]) == 0;
    assert BigEndian([0, 0]) == 0;
    assert BigEndian([0, 0, 0]) == 0;
  }

  /** Exactly when the sum wraps around: a 64-bit length within ten of 2^64, which section 5.2 of
      RFC 6455 does not allow. Then fewer bytes are consumed than the header has. */
  lemma OutOfBoundsExactly(s: seq<byte>)
    ensures Parse(s).OutOfBounds? <==>
              |s| >= 10 && Rsv(s[0]) == 0 && s[1] == 127 && BigEndian(s[2..10]) >= U64_MOD - 10
    ensures Parse(s).OutOfBounds? ==>
              Parse(s).len == BigEndian(s[2..10]) >= U64_MOD / 2
              && Parse(s).wrapped == Parse(s).len + 10 - U64_MOD < 10
  {
    if |s| >= 10 {
      BigEndianBound(s[2..10]);
      Pow256Values();
    }
    if |s| >= 4 {
      TwoBytes(s[2..4]);
    }
  }

  /** Ten bytes that parse "successfully" and consume nothing. */
  lemma OutOfBoundsExample()
    ensures Parse([0x82, 127, 255, 255, 255, 255, 255, 255, 255, 246])
            == OutOfBounds(true, BINARY, U64_MOD - 10, 0)
  {
    var s: seq<byte> := [0x82, 127, 255, 255, 255, 255, 255, 255, 255, 246];
    var field: seq<byte> := [255, 255, 255, 255, 255, 255, 255, 246];
    assert s[2..10] == field;
    var x := 0;
    for i := 0 to 8
      invariant x == BigEndian(field[..i])
      invariant x == [0, 0xFF, 0xFFFF, 0xFF_FFFF, 0xFFFF_FFFF, 0xFF_FFFF_FFFF, 0xFFFF_FFFF_FFFF,
                      0xFF_FFFF_FFFF_FFFF, 0xFFFF_FFFF_FFFF_FFF6][i]
    {
      assert field[..i + 1][..i] == field[..i];
      x := x * 256 + field[i] as nat;
    }
    assert field[..8] == field;
  }

  /** What was parsed is a minimal encoding exactly when its length field is the shortest one. */
  lemma EncodeParsed(s: seq<byte>)
    requires Parse(s).Parsed?
    ensures var v := Parse(s);
            Encode(v.frame) == s[..v.consumed]
            <==> v.consumed == 1 + |LengthField(|v.frame.payload|)| + |v.frame.payload|
  {
    var f, n := Parse(s).frame, Parse(s).consumed;
    ParsedBounds(s);
    var size := n - |f.payload|;
    if size == 1 + |LengthField(|f.payload|)| {
      FieldOfHeader(s);
      assert s[..n] == [s[0]] + s[1..size] + s[size..n];
    }
  }

  /** A header of the shortest size holds the shortest length field. */
  lemma FieldOfHeader(s: seq<byte>)
    requires Parse(s).Parsed?
    ensures var h := ReadHeader(s);
            h.size == 1 + |LengthField(h.len)| ==> s[1..h.size] == LengthField(h.len)
    ensures FirstByte(Parse(s).frame) == s[0]
  {
    hide BigEndian, ToBigEndian;
    var h := ReadHeader(s);
    if h.size == 4 {
      ToBigEndianOf(s[2..4]);
      assert s[1..4] == [s[1]] + s[2..4];
    } else if h.size == 10 {
      ToBigEndianOf(s[2..10]);
      assert s[1..10] == [s[1]] + s[2..10];
    } else {
      assert s[1..2] == [s[1]];
    }
  }

  /** The frames at the front of `s`, and the bytes left when no further frame is complete. */
  function ParseAll(s: seq<byte>): (seq<Frame>, seq<byte>)
    decreases |s|
  {
    match Parse(s)
    case Parsed(f, n) =>
      ParsedBounds(s);
      var (fs, rest) := ParseAll(s[n..]);
      ([f] + fs, rest)
    case _ => ([], s)
  }

  ghost predicate AllSendable(fs: seq<Frame>) {
    forall i :: 0 <= i < |fs| ==> Sendable(fs[i])
  }

  function EncodeAll(fs: seq<Frame>): seq<byte>
    requires AllSendable(fs)
  {
    if |fs| == 0 then [] else Encode(fs[0]) + EncodeAll(fs[1..])
  }

  /** Repeated parsing recovers any list of frames, and the unfinished bytes after them. */
  lemma {:induction false} ParseAllEncodeAll(fs: seq<Frame>, tail: seq<byte>)
    requires AllSendable(fs)
    requires Parse(tail) == NeedMore
    ensures ParseAll(EncodeAll(fs) + tail) == (fs, tail)
  {
    if |fs| == 0 {
      assert fs == [] && EncodeAll(fs) + tail == tail;
    } else {
      hide Parse, Encode, Sendable;
      var rest := EncodeAll(fs[1..]) + tail;
      var s := Encode(fs[0]) + rest;
      Regroup(Encode(fs[0]), EncodeAll(fs[1..]), tail);
      ParseEncode(fs[0], rest);
      assert s[|Encode(fs[0])|..] == rest;
      ParseAllEncodeAll(fs[1..], tail);
      assert ParseAll(s) == ([fs[0]] + fs[1..], tail);
      assert [fs[0]] + fs[1..] == fs;
    }
  }
}
