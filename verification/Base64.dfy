/** Base64 as defined by section 4 of RFC 4648. */
module Base64 {
  import opened Bytes

  const UPPER0: string := "ABCDEFGHIJKLM"
  const UPPER1: string := "NOPQRSTUVWXYZ"
  const LOWER0: string := "abcdefghijklm"
  const LOWER1: string := "nopqrstuvwxyz"
  const DIGITS: string := "0123456789+/"
  const TABLE: string := UPPER0 + UPPER1 + LOWER0 + LOWER1 + DIGITS

  type Sextet = x: nat | x < 64

  /** The alphabet by ranges; `TableIsAlphabet` ties it to the table. */
  function Symbol(v: Sextet): char {
    if v < 26 then (v + 65) as char
    else if v < 52 then (v + 71) as char
    else if v < 62 then (v - 4) as char
    else if v == 62 then '+'
    else '/'
  }

  // The four six-bit groups of a three-byte block, in unsigned arithmetic.
  function First(a: byte): Sextet { a as nat / 4 }
  function Second(a: byte, b: byte): Sextet { a as nat % 4 * 16 + b as nat / 16 }
  function Third(b: byte, c: byte): Sextet { b as nat % 16 * 4 + c as nat / 64 }
  function Fourth(c: byte): Sextet { c as nat % 64 }

  function Block(a: byte, b: byte, c: byte): (r: string)
    ensures |r| == 4
  {
    [Symbol(First(a)), Symbol(Second(a, b)), Symbol(Third(b, c)), Symbol(Fourth(c))]
  }

  /** The encoding, block by block. */
  function Encode(s: seq<byte>): string {
    if |s| == 0 then ""
    else if |s| == 1 then [Symbol(First(s[0])), Symbol(Second(s[0], 0)), '=', '=']
    else if |s| == 2 then
      [Symbol(First(s[0])), Symbol(Second(s[0], s[1])), Symbol(Third(s[1], 0)), '=']
    else Block(s[0], s[1], s[2]) + Encode(s[3..])
  }

  function EncodedLength(n: nat): nat {
    4 * ((n + 2) / 3)
  }

  lemma LengthStep(n: nat)
    ensures EncodedLength(0) == 0
    ensures 1 <= n <= 2 ==> EncodedLength(n) == 4
    ensures n >= 3 ==> EncodedLength(n) == 4 + EncodedLength(n - 3)
  {
  }

  lemma EncodeStep(s: seq<byte>)
    requires |s| >= 3
    ensures Encode(s) == Block(s[0], s[1], s[2]) + Encode(s[3..])
  {
  }

  /** Fills `out` exactly, advancing three source bytes and four characters at a time. */
  method EncodeInto(input: seq<byte>, out: array<char>)
    requires out.Length == 4 * ((|input| + 2) / 3)
    modifies out
    ensures out[..] == Encode(input)
  {
    hide Block, EncodedLength, Encode;
    assert out.Length == EncodedLength(|input|) by { LengthOf(|input|); }
    var src, pos := 0, 0;
    assert input[0..] == input && out[..0] + Encode(input) == Encode(input);
    while |input| - src >= 3
      invariant 0 <= src <= |input|
      invariant 0 <= pos && pos + EncodedLength(|input| - src) == out.Length
      invariant out[..pos] + Encode(input[src..]) == Encode(input)
    {
      ghost var done, left := out[..pos], input[src..];
      LengthStep(|left|);
      EncodeStep(left);
      assert left[3..] == input[src + 3..];
      EncodeBlock(input[src], input[src + 1], input[src + 2], out, pos);
      Regroup(done, Block(left[0], left[1], left[2]), Encode(left[3..]));
      src, pos := src + 3, pos + 4;
    }
    LengthStep(|input| - src);
    if src < |input| {
      EncodeTail(input[src..], out, pos);
    } else {
      assert input[src..] == [] && out[..pos] == out[..];
      assert Encode(input[src..]) == [] by { EncodeNothing(); }
      assert out[..pos] + [] == out[..];
    }
  }

  lemma LengthOf(n: nat)
    ensures EncodedLength(n) == 4 * ((n + 2) / 3)
  {
  }

  lemma EncodeNothing()
    ensures Encode([]) == ""
  {
  }

  /** One round of the loop: four characters at `pos`. */
  method EncodeBlock(a: byte, b: byte, c: byte, out: array<char>, pos: nat)
    requires pos + 4 <= out.Length
    modifies out
    ensures out[..pos + 4] == old(out[..pos]) + Block(a, b, c)
  {
    out[pos] := Symbol(First(a));
    out[pos + 1] := Symbol(Second(a, b));
    out[pos + 2] := Symbol(Third(b, c));
    out[pos + 3] := Symbol(Fourth(c));
  }

  /** The last one or two bytes, padded to four characters. */
  method EncodeTail(left: seq<byte>, out: array<char>, pos: nat)
    requires 1 <= |left| <= 2 && pos + 4 == out.Length
    modifies out
    ensures out[..] == old(out[..pos]) + Encode(left)
  {
    out[pos] := Symbol(First(left[0]));
    if |left| == 1 {
      out[pos + 1] := Symbol(Second(left[0], 0));
      out[pos + 2] := '=';
    } else {
      out[pos + 1] := Symbol(Second(left[0], left[1]));
      out[pos + 2] := Symbol(Third(left[1], 0));
    }
    out[pos + 3] := '=';
  }

  /** The reference inverse of the table. */
  function Value(c: char): Sextet {
    if 'A' <= c <= 'Z' then c as int - 'A' as int
    else if 'a' <= c <= 'z' then c as int - 'a' as int + 26
    else if '0' <= c <= '9' then c as int - '0' as int + 52
    else if c == '+' then 62
    else 63
  }

  /** The bytes of four six-bit groups. */
  function Bytes3(w: Sextet, x: Sextet, y: Sextet, z: Sextet): (byte, byte, byte) {
    ((w * 4 + x / 16) as byte, (x % 16 * 16 + y / 4) as byte, (y % 4 * 64 + z) as byte)
  }

  /** The reference decoder: a block that ends in padding yields one or two bytes. */
  function Decode(t: string): seq<byte> {
    if |t| < 4 then []
    else
      var (a, b, c) := Bytes3(Value(t[0]), Value(t[1]), Value(t[2]), Value(t[3]));
      if t[2] == '=' then [a]
      else if t[3] == '=' then [a, b]
      else [a, b, c] + Decode(t[4..])
  }

  lemma UpperAndLower(v: nat)
    requires v < 13
    ensures UPPER0[v] as int == 65 + v && UPPER1[v] as int == 78 + v
    ensures LOWER0[v] as int == 97 + v && LOWER1[v] as int == 110 + v
  {
  }

  lemma DigitsAndSigns(v: nat)
    requires v < 12
    ensures DIGITS[v] as int == if v < 10 then 48 + v else if v == 10 then 43 else 47
  {
  }

  lemma TablePieces(v: nat)
    requires v < 13
    ensures |TABLE| == 64
    ensures TABLE[v] == UPPER0[v] && TABLE[13 + v] == UPPER1[v]
    ensures TABLE[26 + v] == LOWER0[v] && TABLE[39 + v] == LOWER1[v]
    ensures v < 12 ==> TABLE[52 + v] == DIGITS[v]
  {
    FivePieces(UPPER0, UPPER1, LOWER0, LOWER1, DIGITS, v);
  }

  lemma FivePieces(a: string, b: string, c: string, d: string, e: string, v: nat)
    requires |a| == |b| == |c| == |d| == 13 && |e| == 12 && v < 13
    ensures var t := a + b + c + d + e;
            |t| == 64 && t[v] == a[v] && t[13 + v] == b[v] && t[26 + v] == c[v] && t[39 + v] == d[v]
            && (v < 12 ==> t[52 + v] == e[v])
  {
  }

  lemma TableIsAlphabet(v: Sextet)
    ensures |TABLE| == 64 && TABLE[v] == Symbol(v)
  {
    hide TABLE;
    if v < 52 {
      TablePieces(v % 13);
      UpperAndLower(v % 13);
    } else {
      TablePieces(v - 52);
      DigitsAndSigns(v - 52);
    }
  }

  lemma SymbolInverse(v: Sextet)
    ensures Value(Symbol(v)) == v && Symbol(v) != '='
  {
  }

  lemma SplitAt4(a: nat, b: nat)
    requires a < 256 && b < 256
    ensures a / 4 * 4 + (a % 4 * 16 + b / 16) / 16 == a && (a % 4 * 16 + b / 16) % 16 == b / 16
  {
  }

  lemma SplitAt16(b: nat, c: nat)
    requires b < 256 && c < 256
    ensures b / 16 * 16 + (b % 16 * 4 + c / 64) / 4 == b && (b % 16 * 4 + c / 64) % 4 == c / 64
  {
  }

  lemma GroupsRoundTrip(a: byte, b: byte, c: byte)
    ensures Bytes3(First(a), Second(a, b), Third(b, c), Fourth(c)) == (a, b, c)
  {
    SplitAt4(a as nat, b as nat);
    SplitAt16(b as nat, c as nat);
  }

  lemma PaddedGroups(a: byte, b: byte, y: Sextet, z: Sextet)
    ensures Bytes3(First(a), Second(a, 0), y, z).0 == a
    ensures Bytes3(First(a), Second(a, b), Third(b, 0), z).0 == a
    ensures Bytes3(First(a), Second(a, b), Third(b, 0), z).1 == b
  {
    SplitAt4(a as nat, 0);
    SplitAt4(a as nat, b as nat);
    SplitAt16(b as nat, 0);
  }

  /** A whole block followed by anything decodes to its three bytes and the rest. */
  lemma BlockRoundTrip(a: byte, b: byte, c: byte, rest: string)
    ensures Decode(Block(a, b, c) + rest) == [a, b, c] + Decode(rest)
  {
    hide Symbol, Value, Bytes3, First, Second, Third, Fourth;
    SymbolInverse(First(a));
    SymbolInverse(Second(a, b));
    SymbolInverse(Third(b, c));
    SymbolInverse(Fourth(c));
    GroupsRoundTrip(a, b, c);
    assert (Block(a, b, c) + rest)[4..] == rest;
  }

  lemma TailRoundTrip(a: byte, b: byte)
    ensures Decode(Encode([a])) == [a]
    ensures Decode(Encode([a, b])) == [a, b]
  {
    hide Symbol, Value, Bytes3, First, Second, Third, Fourth;
    SymbolInverse(First(a));
    SymbolInverse(Second(a, 0));
    SymbolInverse(Second(a, b));
    SymbolInverse(Third(b, 0));
    PaddedGroups(a, b, Value('='), Value('='));
  }

  /** Decoding recovers every input, whatever its length modulo three. */
  lemma {:induction false} RoundTrip(s: seq<byte>)
    ensures |Encode(s)| == 4 * ((|s| + 2) / 3)
    ensures Decode(Encode(s)) == s
  {
    hide Block, Symbol, Value, Bytes3;
    if |s| == 1 {
      TailRoundTrip(s[0], 0);
      assert s == [s[0]];
    } else if |s| == 2 {
      TailRoundTrip(s[0], s[1]);
      assert s == [s[0], s[1]];
    } else if |s| >= 3 {
      RoundTrip(s[3..]);
      BlockRoundTrip(s[0], s[1], s[2], Encode(s[3..]));
    }
  }

  lemma Injective(s: seq<byte>, t: seq<byte>)
    requires Encode(s) == Encode(t)
    ensures s == t
  {
    RoundTrip(s);
    RoundTrip(t);
  }

  lemma {:induction false} Printable(s: seq<byte>)
    ensures forall i :: 0 <= i < |Encode(s)| ==> '+' <= Encode(s)[i] <= 'z'
  {
    hide First, Second, Third, Fourth;
    if |s| >= 3 {
      Printable(s[3..]);
    }
  }

  /** Examples of section 10 of RFC 4648. */
  lemma Examples()
    ensures Encode(Ascii("f")) == "Zg==" && Encode(Ascii("fo")) == "Zm8="
  {
    assert Ascii("f") == [102] && Ascii("fo") == [102, 111];
  }

  lemma LongerExample()
    ensures Encode(Ascii("foobar")) == "Zm9vYmFy"
  {
    var s := Ascii("foobar");
    assert s == [102, 111, 111, 98, 97, 114];
    assert s[3..] == [98, 97, 114] && s[3..][3..] == [];
    assert Encode(s[3..]) == Block(98, 97, 114) by {
      assert Block(98, 97, 114) + Encode([]) == Block(98, 97, 114);
    }
    assert Encode(s) == Block(102, 111, 111) + Encode(s[3..]);
  }
}
