/** The masked control frames a client sends (sections 5.3 and 5.5 of RFC 6455). */
module ControlFrames {
  import opened Bytes
  import opened Frames
  import opened Options

  /** A status code of section 7.4 of RFC 6455. */
  type Code = x: nat | x < 0x1_0000

  const NORMAL_CLOSURE: Code := 1000

  /** Payload byte `i` is combined with mask byte `i` modulo four. */
  function MaskWith(mask: seq<byte>, payload: seq<byte>): (s: seq<byte>)
    requires |mask| == 4
    ensures |s| == |payload|
  {
    seq(|payload|, i requires 0 <= i < |payload| => Xor(mask[i % 4], payload[i]))
  }

  function ControlFrame(op: byte, mask: seq<byte>, payload: seq<byte>): (s: seq<byte>)
    requires op < 16 && |mask| == 4 && |payload| <= 125
    ensures |s| == 6 + |payload|
  {
    [0x80 + op, 0x80 + |payload| as byte] + mask + MaskWith(mask, payload)
  }

  /** Fills the span of `out` that starts at `from`; writes nothing when the frame does not fit or
      the payload is too long for a control frame. `mask` is what the random source delivers. */
  method WriteControlFrame(out: array<byte>, from: nat, op: byte, mask: seq<byte>, payload: seq<byte>)
    returns (n: nat)
    requires from <= out.Length && op < 16 && |mask| == 4
    modifies out
    ensures n == if out.Length - from < 6 + |payload| || 125 < |payload| then 0 else 6 + |payload|
    ensures n > 0 ==> out[from..from + n] == ControlFrame(op, mask, payload)
    ensures out[..from] == old(out[..from]) && out[from + n..] == old(out[from + n..])
  {
    hide Xor, MaskWith;
    if out.Length - from < 6 + |payload| || 125 < |payload| {
      return 0;
    }
    n := 6 + |payload|;
    WriteHead(out, from, 0x80 + op, 0x80 + |payload| as byte, mask);
    ghost var headed := out[..];
    assert out[from + 2..from + 6] == out[from..from + 6][2..];
    WriteMasked(out, from + 6, mask, payload);
    Spliced(old(out[..]), headed, out[..], from, from + 6, from + n);
  }

  /** Two stretches written one after the other. */
  lemma Spliced(a: seq<byte>, b: seq<byte>, c: seq<byte>, i: nat, j: nat, k: nat)
    requires i <= j <= k <= |a| == |b| == |c|
    requires b[..i] == a[..i] && b[j..] == a[j..] && c[..j] == b[..j] && c[k..] == b[k..]
    ensures c[..i] == a[..i] && c[k..] == a[k..] && c[i..k] == b[i..j] + c[j..k]
  {
    assert c[..i] == c[..j][..i] && b[..i] == b[..j][..i];
    assert b[k..] == b[j..][k - j..] && a[k..] == a[j..][k - j..];
    assert c[i..j] == c[..j][i..] && b[i..j] == b[..j][i..];
    assert c[i..k] == c[i..j] + c[j..k];
  }

  /** The two fixed bytes and the mask. */
  method WriteHead(out: array<byte>, from: nat, b0: byte, b1: byte, mask: seq<byte>)
    requires from + 6 <= out.Length && |mask| == 4
    modifies out
    ensures out[from..from + 6] == [b0, b1] + mask
    ensures out[..from] == old(out[..from]) && out[from + 6..] == old(out[from + 6..])
  {
    out[from] := b0;
    out[from + 1] := b1;
    out[from + 2] := mask[0];
    out[from + 3] := mask[1];
    out[from + 4] := mask[2];
    out[from + 5] := mask[3];
  }

  /** Each payload byte is combined with a mask byte read back from the output. */
  method WriteMasked(out: array<byte>, at: nat, ghost mask: seq<byte>, payload: seq<byte>)
    requires 4 <= at && at + |payload| <= out.Length && |mask| == 4
    requires out[at - 4..at] == mask
    modifies out
    ensures out[at..at + |payload|] == MaskWith(mask, payload)
    ensures out[..at] == old(out[..at])
    ensures out[at + |payload|..] == old(out[at + |payload|..])
  {
    hide Xor;
    for i := 0 to |payload|
      invariant forall j :: 0 <= j < at || at + |payload| <= j < out.Length ==> out[j] == old(out[j])
      invariant forall j :: 0 <= j < i ==> out[at + j] == MaskWith(mask, payload)[j]
    {
      assert old(out[at - 4..at])[i % 4] == out[at - 4 + i % 4];
      out[at + i] := Xor(out[at - 4 + i % 4], payload[i]);
    }
    var n := |payload|;
    assert forall j :: 0 <= j < n ==> out[at..at + n][j] == MaskWith(mask, payload)[j];
    SameEnds(old(out[..]), out[..], at, at + n);
  }

  lemma SameEnds(s: seq<byte>, t: seq<byte>, i: nat, j: nat)
    requires i <= j <= |s| == |t| && forall k :: 0 <= k < i || j <= k < |s| ==> s[k] == t[k]
    ensures s[..i] == t[..i] && s[j..] == t[j..]
  {
  }

  /** The reference receiver: what a server reads out of one short masked frame. */
  function Unmask(s: seq<byte>): Option<Frame> {
    if |s| < 6 || s[0] / 16 % 8 != 0 || s[1] < 0x80 || s[1] - 0x80 > 125 || |s| != 6 + (s[1] - 0x80) as nat
    then None
    else
      Some(Frame(s[0] >= 0x80, s[0] % 16, seq(|s| - 6, i requires 0 <= i < |s| - 6 => Xor(s[2 + i % 4], s[6 + i]))))
  }

  /** The head of a control frame: the final bit and the opcode, the mask bit and the length, and
      the mask. */
  lemma ControlFrameHead(op: byte, mask: seq<byte>, payload: seq<byte>)
    requires op < 16 && |mask| == 4 && |payload| <= 125
    ensures var s := ControlFrame(op, mask, payload);
            |s| == 6 + |payload| && s[0] == 128 + op && s[1] as nat == 128 + |payload| && s[2..6] == mask
  {
  }

  /** Its body: each byte is a payload byte, each bit of it turned over where one of the four mask
      bytes, in turn, has a one. */
  lemma ControlFrameBody(op: byte, mask: seq<byte>, payload: seq<byte>, i: nat)
    requires op < 16 && |mask| == 4 && |payload| <= 125 && i < |payload|
    ensures var s := ControlFrame(op, mask, payload);
            BitwiseXor(s[6 + i] as nat, s[2 + i % 4] as nat, payload[i] as nat)
  {
    hide Xor, BitwiseXor;
    XorIsBitwise(mask[i % 4], payload[i]);
  }

  /** Whatever the mask, the receiver recovers the opcode and the payload. */
  lemma UnmaskControlFrame(op: byte, mask: seq<byte>, payload: seq<byte>)
    requires op < 16 && |mask| == 4 && |payload| <= 125
    ensures Unmask(ControlFrame(op, mask, payload)) == Some(Frame(true, op, payload))
  {
    hide Xor;
    var s := ControlFrame(op, mask, payload);
    var body := seq(|s| - 6, i requires 0 <= i < |s| - 6 => Xor(s[2 + i % 4], s[6 + i]));
    forall i | 0 <= i < |payload|
      ensures body[i] == payload[i]
    {
      XorTwice(mask[i % 4], payload[i]);
    }
    assert body == payload;
  }

  /** A Close frame whose body is a status code in network byte order. */
  function CloseFrame(mask: seq<byte>, code: Code): (s: seq<byte>)
    requires |mask| == 4
    ensures |s| == 8
  {
    ControlFrame(CLOSE, mask, ToBigEndian(code, 2))
  }

  lemma UnmaskCloseFrame(mask: seq<byte>, code: Code)
    requires |mask| == 4
    ensures Unmask(CloseFrame(mask, code)) == Some(Frame(true, CLOSE, ToBigEndian(code, 2)))
    ensures BigEndian(ToBigEndian(code, 2)) == code
  {
    UnmaskControlFrame(CLOSE, mask, ToBigEndian(code, 2));
    Pow256Values();
    BigEndianRoundTrip(code, 2);
  }

  /** The status code a received Close frame carries; an empty body means normal closure. */
  function CloseCode(payload: seq<byte>): Code {
    if |payload| >= 2 then payload[0] as nat * 256 + payload[1] as nat else NORMAL_CLOSURE
  }

  const REPLY_MASK: seq<byte> := [0xDE, 0xAD, 0xBE, 0xEF]

  /** The reply to a Close frame, assembled byte by byte under a constant mask. */
  function CloseReply(payload: seq<byte>): (s: seq<byte>)
    ensures |s| == 8
  {
    var code := CloseCode(payload);
    [0x88, 0x82, 0xDE, 0xAD, 0xBE, 0xEF,
     Xor(0xDE, (code / 256) as byte), Xor(0xAD, (code % 256) as byte)]
  }

  lemma CodeBytes(code: Code)
    ensures ToBigEndian(code, 2) == [(code / 256) as byte, (code % 256) as byte]
  {
    assert ToBigEndian(code / 256, 1) == ToBigEndian(code / 256 / 256, 0) + [(code / 256 % 256) as byte];
  }

  /** The hand-made reply is the frame the general writer makes for the same code. */
  lemma CloseReplyIsCloseFrame(payload: seq<byte>)
    ensures CloseReply(payload) == CloseFrame(REPLY_MASK, CloseCode(payload))
  {
    hide Xor, ToBigEndian, CloseCode;
    var code := CloseCode(payload);
    CodeBytes(code);
    var body := ToBigEndian(code, 2);
    assert MaskWith(REPLY_MASK, body) == [Xor(0xDE, body[0]), Xor(0xAD, body[1])];
  }

  /** The reply carries back exactly the code that was received, without a reason; 1000 if there was
      none. */
  lemma CloseReplyEchoes(payload: seq<byte>)
    ensures Unmask(CloseReply(payload))
            == Some(Frame(true, 8, if |payload| >= 2 then payload[..2] else [0x03, 0xE8]))
    ensures CloseReply(payload)[2..6] == [0xDE, 0xAD, 0xBE, 0xEF]
  {
    hide CloseFrame, Unmask, ToBigEndian;
    CloseReplyIsCloseFrame(payload);
    UnmaskCloseFrame(REPLY_MASK, CloseCode(payload));
    CodeBytes(CloseCode(payload));
    if |payload| >= 2 {
      assert CloseCode(payload) / 256 == payload[0] as nat && CloseCode(payload) % 256 == payload[1] as nat;
      assert payload[..2] == [payload[0], payload[1]];
    }
  }
}
