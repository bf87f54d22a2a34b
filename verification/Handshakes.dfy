/** The scanner for the server's answer to the upgrade request (section 4.1 of RFC 6455). */
module Handshakes {
  import opened Bytes
  import opened Options
  import opened Protocols

  const CR: byte := 13
  const LF: byte := 10
  const SP: byte := 32
  const CAPITAL_S: byte := 83
  const CODE_101: seq<byte> := [49, 48, 49]

  /** "sec-websocket-accept:" */
  const NAME: seq<byte> := [
    115, 101, 99, 45, 119, 101, 98, 115, 111, 99, 107, 101, 116, 45, 97, 99, 99, 101, 112, 116, 58]

  /** How far into CR LF CR LF the input is after one more byte. */
  function AdvanceCrlf(count: nat, chr: byte): nat {
    if chr == CR then count + (if count % 2 == 0 then 1 else 0)
    else if chr == LF then count + count % 2
    else 0
  }

  function CrlfCount(s: seq<byte>): nat {
    if |s| == 0 then 0 else AdvanceCrlf(CrlfCount(s[..|s| - 1]), s[|s| - 1])
  }

  function Lower(b: byte): byte {
    if 65 <= b <= 90 then b + 32 else b
  }

  /** A header line named Sec-WebSocket-Accept starts at `i`; only its first letter is case
      sensitive, and at least one byte must follow the name. */
  predicate NameAt(s: seq<byte>, i: nat) {
    i + |NAME| < |s| && s[i] == CAPITAL_S && CrlfCount(s[..i]) == 2
    && forall j :: 0 <= j < |NAME| ==> Lower(s[i + j]) == NAME[j]
  }

  /** The length of the response head: the first prefix that completes the terminator. */
  function FindHead(s: seq<byte>, i: nat): (r: Option<nat>)
    ensures r.Some? ==> i <= r.value <= |s| && CrlfCount(s[..r.value]) == 4
    ensures r.Some? ==> forall m :: i <= m < r.value ==> CrlfCount(s[..m]) != 4
    ensures r.None? ==> forall m :: i <= m <= |s| ==> CrlfCount(s[..m]) != 4
    decreases |s| - i
  {
    if i > |s| then None
    else if CrlfCount(s[..i]) == 4 then Some(i)
    else FindHead(s, i + 1)
  }

  /** The first space of `s[i..n]`, or zero. */
  function FindSpace(s: seq<byte>, i: nat, n: nat): (r: nat)
    requires 1 <= i <= n <= |s|
    ensures r == 0 ==> forall m :: i <= m < n ==> s[m] != SP
    ensures r != 0 ==> i <= r < n && s[r] == SP && forall m :: i <= m < r ==> s[m] != SP
    decreases n - i
  {
    if i == n then 0 else if s[i] == SP then i else FindSpace(s, i + 1, n)
  }

  /** The first header line of that name that starts in `s[i..n]`. */
  function FindName(s: seq<byte>, i: nat, n: nat): (r: Option<nat>)
    requires i <= n <= |s|
    ensures r.None? ==> forall m :: i <= m < n ==> !NameAt(s, m)
    ensures r.Some? ==> i <= r.value < n && NameAt(s, r.value)
    ensures r.Some? ==> forall m :: i <= m < r.value ==> !NameAt(s, m)
    decreases n - i
  {
    if i == n then None else if NameAt(s, i) then Some(i) else FindName(s, i + 1, n)
  }

  function SkipSpaces(s: seq<byte>, i: nat): (r: nat)
    requires i <= |s|
    ensures i <= r <= |s| && (r < |s| ==> s[r] != SP)
    ensures forall m :: i <= m < r ==> s[m] == SP
    decreases |s| - i
  {
    if i < |s| && s[i] == SP then SkipSpaces(s, i + 1) else i
  }

  function LineEnd(s: seq<byte>, i: nat): (r: nat)
    requires i <= |s|
    ensures i <= r <= |s| && (r < |s| ==> s[r] in {CR, LF})
    ensures forall m :: i <= m < r ==> s[m] !in {CR, LF}
    decreases |s| - i
  {
    if i < |s| && s[i] != CR && s[i] != LF then LineEnd(s, i + 1) else i
  }

  /** Where the compared value starts. Without the header it is the start of the response. */
  function ValueStart(s: seq<byte>, n: nat): (r: nat)
    requires n <= |s|
    ensures r <= |s|
  {
    match FindName(s, 0, n)
    case None => 0
    case Some(i) => SkipSpaces(s, i + |NAME|)
  }

  function Value(s: seq<byte>, n: nat): seq<byte>
    requires n <= |s|
  {
    s[ValueStart(s, n)..LineEnd(s, ValueStart(s, n))]
  }

  /** The three bytes after the first space are the status 101. */
  predicate Switching(s: seq<byte>, n: nat)
    requires 1 <= n <= |s|
  {
    var sp := FindSpace(s, 1, n);
    sp != 0 && sp + 3 < |s| && s[sp + 1..sp + 4] == CODE_101
  }

  /** How many bytes are consumed, and the verdict. */
  function ReadHandshake(key: seq<byte>, s: seq<byte>): (nat, Status) {
    match FindHead(s, 0)
    case None => (0, Ok)
    case Some(n) => (n, if n >= 1 && Switching(s, n) && Value(s, n) == key then Ok else Error)
  }

  /** The scanner: one pass that tracks three indices and the terminator count, then the checks. */
  method ScanHandshake(key: seq<byte>, input: seq<byte>) returns (consumed: nat, status: Status)
    ensures (consumed, status) == ReadHandshake(key, input)
  {
    hide FindHead, ValueStart, FindSpace, CrlfCount;
    var crlf, sp, keyStart, i := ScanHead(input);
    if crlf != 4 {
      return 0, Ok;
    }
    consumed := i + 1;
    if sp == 0 || |input| <= sp + 3 {
      return consumed, Error;
    }
    if input[sp + 1] != 49 || input[sp + 2] != 48 || input[sp + 3] != 49 {
      return consumed, Error;
    }
    assert input[sp + 1..sp + 4] == [input[sp + 1], input[sp + 2], input[sp + 3]];
    var keyEnd := keyStart;
    while keyEnd < |input| && input[keyEnd] != CR && input[keyEnd] != LF
      invariant keyStart <= keyEnd <= |input|
      invariant LineEnd(input, keyStart) == LineEnd(input, keyEnd)
    {
      keyEnd := keyEnd + 1;
    }
    status := if input[keyStart..keyEnd] == key then Ok else Error;
  }

  /** The pass over the bytes: stops at the byte that completes the terminator. */
  method ScanHead(input: seq<byte>) returns (crlf: nat, sp: nat, keyStart: nat, i: nat)
    ensures crlf != 4 ==> FindHead(input, 0) == None
    ensures crlf == 4 ==> i < |input| && FindHead(input, 0) == Some(i + 1)
    ensures crlf == 4 ==> sp == FindSpace(input, 1, i + 1) && keyStart == ValueStart(input, i + 1)
  {
    hide ValueStart, FindSpace, FindHead;
    crlf, sp, keyStart, i := 0, 0, 0, 0;
    NothingYet(input);
    while i < |input|
      invariant 0 <= i <= |input| && crlf == CrlfCount(input[..i])
      invariant forall m :: 0 <= m <= i ==> CrlfCount(input[..m]) != 4
      invariant sp == if i == 0 then 0 else FindSpace(input, 1, i)
      invariant keyStart == ValueStart(input, i)
    {
      var chr := input[i];
      NextSpace(input, i);
      NextValue(input, i);
      if sp == 0 && chr == SP {
        sp := i;
      }
      if keyStart == 0 && crlf == 2 && chr == CAPITAL_S && i + |NAME| < |input| {
        var same := SameName(input, i);
        if same {
          keyStart := PastSpaces(input, i + |NAME|);
        }
      }
      crlf := AdvanceCrlf(crlf, chr);
      assert input[..i + 1][..i] == input[..i];
      if crlf == 4 {
        HeadIs(input, i + 1);
        return;
      }
      i := i + 1;
    }
    HeadIsNot(input);
  }

  method SameName(input: seq<byte>, i: nat) returns (same: bool)
    requires i + |NAME| < |input|
    ensures same <==> forall j :: 0 <= j < |NAME| ==> Lower(input[i + j]) == NAME[j]
  {
    same := true;
    for k := 0 to |NAME|
      invariant same <==> forall j :: 0 <= j < k ==> Lower(input[i + j]) == NAME[j]
    {
      same := same && Lower(input[i + k]) == NAME[k];
    }
  }

  method PastSpaces(input: seq<byte>, i: nat) returns (k: nat)
    requires i <= |input|
    ensures k == SkipSpaces(input, i)
  {
    k := i;
    while k < |input| && input[k] == SP
      invariant i <= k <= |input| && SkipSpaces(input, i) == SkipSpaces(input, k)
    {
      k := k + 1;
    }
  }

  lemma NothingYet(s: seq<byte>)
    ensures ValueStart(s, 0) == 0
  {
  }

  lemma NextSpace(s: seq<byte>, i: nat)
    requires i < |s|
    ensures var sp := if i == 0 then 0 else FindSpace(s, 1, i);
            FindSpace(s, 1, i + 1) == if sp == 0 && s[i] == SP then i else sp
  {
  }

  lemma NextValue(s: seq<byte>, i: nat)
    requires i < |s|
    ensures ValueStart(s, i + 1)
         == if ValueStart(s, i) == 0 && NameAt(s, i) then SkipSpaces(s, i + |NAME|) else ValueStart(s, i)
  {
  }

  lemma HeadIs(s: seq<byte>, n: nat)
    requires n <= |s| && CrlfCount(s[..n]) == 4
    requires forall m :: 0 <= m < n ==> CrlfCount(s[..m]) != 4
    ensures FindHead(s, 0) == Some(n)
  {
  }

  lemma HeadIsNot(s: seq<byte>)
    requires forall m :: 0 <= m <= |s| ==> CrlfCount(s[..m]) != 4
    ensures FindHead(s, 0) == None
  {
  }
}
