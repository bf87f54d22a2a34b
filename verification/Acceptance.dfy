/** Exactly which answers to the upgrade request are accepted, said of the bytes alone. */
module Acceptance {
  import opened Bytes
  import opened Options
  import opened Protocols
  import opened Handshakes
  import opened HandshakeLaws
  import opened Responses

  /** The head is the shortest prefix that ends in a blank line. */
  ghost predicate Head(s: seq<byte>, n: nat) {
    n <= |s| && EndsInBlank(s[..n]) && forall m :: 0 <= m < n ==> !EndsInBlank(s[..m])
  }

  /** The first space after the first byte is followed by 101. */
  ghost predicate Says101(s: seq<byte>, n: nat, sp: nat) {
    && 1 <= sp < n <= |s| && s[sp] == SP && (forall m :: 1 <= m < sp ==> s[m] != SP)
    && sp + 3 < |s| && s[sp + 1..sp + 4] == CODE_101
  }

  /** A line after the first one starts at `i` with the name of the header. */
  ghost predicate HeaderAt(s: seq<byte>, i: nat) {
    && i + |NAME| < |s| && EndsInLine(s[..i])
    && s[i] == CAPITAL_S && forall j :: 0 <= j < |NAME| ==> Lower(s[i + j]) == NAME[j]
  }

  ghost predicate FirstHeader(s: seq<byte>, n: nat, i: nat) {
    i < n && HeaderAt(s, i) && forall m :: 0 <= m < i ==> !HeaderAt(s, m)
  }

  ghost predicate NoHeader(s: seq<byte>, n: nat) {
    forall m :: 0 <= m < n ==> !HeaderAt(s, m)
  }

  /** The key stands at `k` and fills the rest of its line. */
  ghost predicate KeyAt(s: seq<byte>, key: seq<byte>, k: nat) {
    && k + |key| < |s| && s[k..k + |key|] == key && s[k + |key|] in {CR, LF}
    && CR !in key && LF !in key
  }

  /** From `from` on the line has nothing but spaces and then the key. */
  ghost predicate Carries(s: seq<byte>, from: nat, key: seq<byte>, k: nat) {
    from <= k < |s| && (forall m :: from <= m < k ==> s[m] == SP) && s[k] != SP && KeyAt(s, key, k)
  }

  ghost predicate HeaderCarries(s: seq<byte>, n: nat, key: seq<byte>, i: nat, k: nat) {
    FirstHeader(s, n, i) && Carries(s, i + |NAME|, key, k)
  }

  /** The first header line carries the key; or there is no header line, and the key is the first
      line. */
  ghost predicate HasKey(s: seq<byte>, n: nat, key: seq<byte>) {
    || (exists i: nat, k: nat :: HeaderCarries(s, n, key, i, k))
    || (NoHeader(s, n) && KeyAt(s, key, 0))
  }

  ghost predicate Acceptable(key: seq<byte>, s: seq<byte>, n: nat, sp: nat) {
    Head(s, n) && Says101(s, n, sp) && HasKey(s, n, key)
  }

  /** Acceptance is exactly this, for every key and every input; and what is consumed is the head. */
  lemma AcceptedExactly(key: seq<byte>, s: seq<byte>)
    ensures (exists n: nat, sp: nat :: Acceptable(key, s, n, sp))
            <==> ReadHandshake(key, s).0 > 0 && ReadHandshake(key, s).1 == Ok
    ensures forall n: nat, sp: nat :: Acceptable(key, s, n, sp) ==> ReadHandshake(key, s) == (n, Ok)
  {
    hide Head, Says101, HasKey, Switching, Value, FindHead;
    forall n: nat, sp: nat | Acceptable(key, s, n, sp)
      ensures n > 0 && ReadHandshake(key, s) == (n, Ok)
    {
      HeadIsFound(s, n);
      LastIsLf(s, n);
      KeyIsValue(s, n, key);
      SpaceIsFound(s, n, sp);
    }
    if ReadHandshake(key, s).0 > 0 && ReadHandshake(key, s).1 == Ok {
      var n := FindHead(s, 0).value;
      HeadIsFound(s, n);
      LastIsLf(s, n);
      KeyIsValue(s, n, key);
      var sp := SpaceOf(s, n);
      assert Acceptable(key, s, n, sp);
    }
  }

  /** Refusal and waiting are exactly this: a complete head that is not acceptable is consumed and is
      an error, and without a complete head nothing happens. */
  lemma RefusedExactly(key: seq<byte>, s: seq<byte>)
    ensures forall n: nat :: Head(s, n) && (forall sp: nat :: !Acceptable(key, s, n, sp)) ==>
              n > 0 && ReadHandshake(key, s) == (n, Error)
    ensures (forall n: nat :: !Head(s, n)) ==> ReadHandshake(key, s) == (0, Ok)
  {
    hide Head, Says101, HasKey, Switching, Value, FindHead;
    forall n: nat | Head(s, n) && forall sp: nat :: !Acceptable(key, s, n, sp)
      ensures n > 0 && ReadHandshake(key, s) == (n, Error)
    {
      HeadIsFound(s, n);
      LastIsLf(s, n);
      KeyIsValue(s, n, key);
      if Switching(s, n) && Value(s, n) == key {
        Acceptably(key, s, n);
      }
    }
    if FindHead(s, 0).Some? {
      HeadIsFound(s, FindHead(s, 0).value);
    }
  }

  lemma Acceptably(key: seq<byte>, s: seq<byte>, n: nat)
    requires Head(s, n) && 1 <= n <= |s| && Switching(s, n) && HasKey(s, n, key)
    ensures exists sp: nat :: Acceptable(key, s, n, sp)
  {
    hide Head, Says101, HasKey, Switching;
    var sp := SpaceOf(s, n);
    assert Acceptable(key, s, n, sp);
  }

  /** A caller's safe case: when the first line holds a space and the key does not, acceptance
      implies that the header was there and carried the key. */
  lemma AcceptedHasHeader(key: seq<byte>, s: seq<byte>, i: nat)
    requires ReadHandshake(key, s).0 > 0 && ReadHandshake(key, s).1 == Ok
    requires SP !in key && i < |s| && s[i] == SP && forall m :: 0 <= m < i ==> s[m] !in {CR, LF}
    ensures exists at: nat, k: nat :: HeaderCarries(s, ReadHandshake(key, s).0, key, at, k)
  {
    hide HeaderCarries, Head, Says101, ReadHandshake;
    AcceptedExactly(key, s);
    var n, sp :| Acceptable(key, s, n, sp);
    if i < |key| <= |s| {
      assert s[0..|key|][i] == s[i];
    }
  }

  lemma HeadIsFound(s: seq<byte>, n: nat)
    ensures Head(s, n) <==> FindHead(s, 0) == Some(n)
  {
    hide FindHead, EndsInBlank;
    HeadEndsInBlank(s);
  }

  lemma SpaceIsFound(s: seq<byte>, n: nat, sp: nat)
    requires Says101(s, n, sp)
    ensures Switching(s, n)
  {
    hide FindSpace;
    assert FindSpace(s, 1, n) == sp;
  }

  lemma SpaceOf(s: seq<byte>, n: nat) returns (sp: nat)
    requires 1 <= n <= |s| && Switching(s, n)
    ensures Says101(s, n, sp)
  {
    hide FindSpace;
    sp := FindSpace(s, 1, n);
  }

  /** Inside the head the scanner's count says where lines start. */
  lemma NameIsHeader(s: seq<byte>, n: nat, i: nat)
    requires FindHead(s, 0) == Some(n) && i < n <= |s|
    ensures NameAt(s, i) <==> HeaderAt(s, i)
  {
    hide FindHead, EndsInBlank, EndsInLine, CrlfCount;
    forall m | 0 <= m < i
      ensures CrlfCount(s[..i][..m]) != 4
    {
      assert s[..i][..m] == s[..m];
    }
    CountMeans(s[..i]);
    HeadEndsInBlank(s);
  }

  lemma KeyIsValue(s: seq<byte>, n: nat, key: seq<byte>)
    requires FindHead(s, 0) == Some(n) && 1 <= n <= |s| && s[n - 1] == LF
    ensures Value(s, n) == key <==> HasKey(s, n, key)
  {
    hide *;
    NameIsFirst(s, n);
    ValueIs(s, n);
    if FindName(s, 0, n).None? {
      LineKey(s, n, key);
    } else {
      HeaderKey(s, n, key, FindName(s, 0, n).value);
    }
  }

  lemma ValueIs(s: seq<byte>, n: nat)
    requires n <= |s|
    ensures match FindName(s, 0, n)
            case None => Value(s, n) == s[0..LineEnd(s, 0)]
            case Some(i) =>
              i + |NAME| <= |s| &&
              var k := SkipSpaces(s, i + |NAME|);
              Value(s, n) == s[k..LineEnd(s, k)]
  {
    hide FindName, LineEnd, SkipSpaces, CrlfCount;
  }

  /** The scanner finds the first header line. */
  lemma NameIsFirst(s: seq<byte>, n: nat)
    requires FindHead(s, 0) == Some(n) && 1 <= n <= |s| && s[n - 1] == LF
    ensures match FindName(s, 0, n)
            case None => NoHeader(s, n)
            case Some(i) => FirstHeader(s, n, i) && i + |NAME| < n
  {
    hide FindHead, FindName, NameAt, HeaderAt;
    forall m | 0 <= m < n
      ensures NameAt(s, m) <==> HeaderAt(s, m)
    {
      NameIsHeader(s, n, m);
    }
    if FindName(s, 0, n).Some? {
      NameInside(s, FindName(s, 0, n).value, n);
    }
  }

  /** Without a header, the value is the first line. */
  lemma LineKey(s: seq<byte>, n: nat, key: seq<byte>)
    requires NoHeader(s, n) && 1 <= n <= |s| && s[n - 1] == LF
    ensures s[0..LineEnd(s, 0)] == key <==> HasKey(s, n, key)
  {
    hide HeaderAt, KeyAt, LineEnd, HeaderCarries;
    KeyEndsLine(s, key, 0, n);
    forall i: nat, k: nat
      ensures !HeaderCarries(s, n, key, i, k)
    {
      NotCarried(s, n, key, i, k);
    }
  }

  lemma NotCarried(s: seq<byte>, n: nat, key: seq<byte>, i: nat, k: nat)
    requires NoHeader(s, n)
    ensures !HeaderCarries(s, n, key, i, k)
  {
    hide HeaderAt, Carries;
  }

  /** With a header, the value is what stands after its name. */
  lemma HeaderKey(s: seq<byte>, n: nat, key: seq<byte>, i: nat)
    requires FirstHeader(s, n, i) && i + |NAME| < n <= |s| && s[n - 1] == LF
    ensures var k := SkipSpaces(s, i + |NAME|);
            s[k..LineEnd(s, k)] == key <==> HasKey(s, n, key)
  {
    hide HeaderAt, KeyAt, LineEnd, SkipSpaces;
    var k := SkipSpaces(s, i + |NAME|);
    assert k < n by { SpacesEnd(s, i + |NAME|, n); }
    KeyEndsLine(s, key, k, n);
    if KeyAt(s, key, k) {
      assert HeaderCarries(s, n, key, i, k);
    }
    forall i': nat, k': nat | HeaderCarries(s, n, key, i', k')
      ensures KeyAt(s, key, k)
    {
      SameHeader(s, n, i, i');
      SpacesStop(s, i + |NAME|, k');
    }
  }

  lemma SameHeader(s: seq<byte>, n: nat, i: nat, i': nat)
    requires FirstHeader(s, n, i) && FirstHeader(s, n, i')
    ensures i == i'
  {
    hide HeaderAt;
  }

  lemma SpacesEnd(s: seq<byte>, i: nat, n: nat)
    requires i < n <= |s| && s[n - 1] == LF
    ensures SkipSpaces(s, i) < n
  {
    hide SkipSpaces;
  }

  lemma SpacesStop(s: seq<byte>, i: nat, k: nat)
    requires i <= k < |s| && s[k] != SP && forall m :: i <= m < k ==> s[m] == SP
    ensures SkipSpaces(s, i) == k
  {
    hide SkipSpaces;
  }

  lemma KeyEndsLine(s: seq<byte>, key: seq<byte>, k: nat, n: nat)
    requires k < n <= |s| && s[n - 1] == LF
    ensures s[k..LineEnd(s, k)] == key <==> KeyAt(s, key, k)
  {
    hide LineEnd;
    var e := LineEnd(s, k);
    assert e < n;
    if s[k..e] == key {
      assert forall m :: 0 <= m < |key| ==> key[m] == s[k + m];
    }
    if KeyAt(s, key, k) {
      forall m | k <= m < k + |key|
        ensures s[m] !in {CR, LF}
      {
        assert s[m] == s[k..k + |key|][m - k];
      }
      assert e == k + |key|;
    }
  }

  // ----- The constants as text

  /** What the scanner looks for, spelled out. */
  lemma Spelled()
    ensures NAME == Ascii("sec-websocket-accept:") && CODE_101 == Ascii("101")
    ensures [CR, LF, SP, CAPITAL_S] == Ascii("\r\n S")
  {
  }

  /** The name of the header counts in any case of its letters, but for a small first one. */
  lemma AnyCase(l: seq<byte>)
    requires |l| == |NAME|
    ensures Named(l) <==>
              l[0] == CAPITAL_S
              && forall j :: 0 <= j < |NAME| ==>
                   l[j] == NAME[j] || (97 <= NAME[j] <= 122 && l[j] as nat == NAME[j] as nat - 32)
  {
    forall j | 0 <= j < |NAME|
      ensures Lower(l[j]) == NAME[j] <==>
                l[j] == NAME[j] || (97 <= NAME[j] <= 122 && l[j] as nat == NAME[j] as nat - 32)
    {
      NoCapitals(j);
    }
  }

  lemma NoCapitals(j: nat)
    requires j < |NAME|
    ensures NAME[j] < 65 || 90 < NAME[j]
  {
  }

  // ----- An answer without the header

  /** "X 101" */
  const STATUS: seq<byte> := [88, SP] + CODE_101

  /** Every key that is a line without a space is accepted from this answer, which has no header at
      all: its first line is the key. */
  lemma AcceptedWithoutHeader(key: seq<byte>)
    requires Line(key) && SP !in key
    ensures var s := key + BREAK + STATUS + BREAK + BREAK;
            ReadHandshake(key, s) == (|s|, Ok) && NoHeader(s, |s|)
  {
    hide Lines, FindHead, HeaderAt, EndsInBlank, CrlfCount;
    var s := key + BREAK + STATUS + BREAK + BREAK;
    WithoutHeader(key);
    ResponseHead([key], STATUS, [], []);
    var n := |s|;
    HeadIsFound(s, n);
    forall m | 0 <= m < n
      ensures !HeaderAt(s, m)
    {
      NameIsHeader(s, n, m);
      NoCapital(key, m);
    }
    assert s[0..|key|] == key;
    assert Says101(s, n, |key| + 3) by {
      var sp := |key| + 3;
      assert s[sp + 1..sp + 4] == CODE_101;
      assert forall m :: 0 <= m < |key| ==> s[m] == key[m];
    }
    assert Acceptable(key, s, n, |key| + 3);
    AcceptedExactly(key, s);
  }

  lemma WithoutHeader(key: seq<byte>)
    ensures key + BREAK + STATUS + BREAK + BREAK == Response([key], STATUS, []) + []
  {
    assert [key][1..] == [];
    assert Lines([key]) == key + BREAK + [];
    assert key + BREAK + [] == key + BREAK;
    assert Lines([]) == [];
  }

  lemma NoBytes()
    ensures CrlfCount([]) == 0
  {
  }

  /** The only capital S could be in the key, which is on the first line. */
  lemma NoCapital(key: seq<byte>, m: nat)
    requires Line(key)
    ensures !NameAt(key + BREAK + STATUS + BREAK + BREAK, m)
  {
    hide CrlfCount;
    var post := STATUS + BREAK + BREAK;
    var s := key + BREAK + STATUS + BREAK + BREAK;
    assert s == [] + key + BREAK + post;
    if m < |key| + 2 {
      NoBytes();
      LineNames([], key, post, m);
    }
  }
}
