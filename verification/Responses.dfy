/** The upgrade response as text, line by line, and its acceptance. */
module Responses {
  import opened Bytes
  import opened Options
  import opened Protocols
  import opened Handshakes
  import opened HandshakeLaws

  /** A non-empty line without its line break. */
  ghost predicate Line(l: seq<byte>) {
    l != [] && CR !in l && LF !in l
  }

  ghost predicate AllLines(ls: seq<seq<byte>>) {
    forall i :: 0 <= i < |ls| ==> Line(ls[i])
  }

  const BREAK: seq<byte> := [CR, LF]

  function Lines(ls: seq<seq<byte>>): seq<byte> {
    if |ls| == 0 then [] else ls[0] + BREAK + Lines(ls[1..])
  }

  /** A Sec-WebSocket-Accept header line. */
  ghost predicate Named(l: seq<byte>) {
    |l| >= |NAME| && l[0] == CAPITAL_S && forall j :: 0 <= j < |NAME| ==> Lower(l[j]) == NAME[j]
  }

  ghost predicate NoneNamed(ls: seq<seq<byte>>) {
    forall i :: 0 <= i < |ls| ==> !Named(ls[i])
  }

  lemma {:induction false} InsideLine(pre: seq<byte>, l: seq<byte>, j: nat)
    requires 1 <= j <= |l| && CR !in l && LF !in l
    ensures CrlfCount(pre + l[..j]) == 0
  {
    var s := pre + l[..j];
    assert s[|s| - 1] == l[j - 1];
  }

  lemma AfterLine(pre: seq<byte>, l: seq<byte>)
    requires Line(l)
    ensures CrlfCount(pre + l + [CR]) == 1
    ensures CrlfCount(pre + l + BREAK) == 2
  {
    assert l[..|l|] == l;
    InsideLine(pre, l, |l|);
    var s := pre + l + [CR];
    assert s[..|s| - 1] == pre + l;
    var t := pre + l + BREAK;
    assert t[..|t| - 1] == s;
  }

  /** The counts along one line of a longer text. */
  lemma LineCounts(pre: seq<byte>, l: seq<byte>, post: seq<byte>, m: nat)
    requires Line(l) && |pre| < m <= |pre| + |l| + 2
    ensures var s := pre + l + BREAK + post;
            CrlfCount(s[..m])
            == if m <= |pre| + |l| then 0 else if m == |pre| + |l| + 1 then 1 else 2
  {
    var s := pre + l + BREAK + post;
    AfterLine(pre, l);
    if m <= |pre| + |l| {
      InsideLine(pre, l, m - |pre|);
      assert s[..m] == pre + l[..m - |pre|];
    } else if m == |pre| + |l| + 1 {
      assert s[..m] == pre + l + [CR];
    } else {
      assert s[..m] == pre + l + BREAK;
    }
  }

  /** Only at its first byte can a line be taken for the header, and only if it is one. */
  lemma LineNames(pre: seq<byte>, l: seq<byte>, post: seq<byte>, i: nat)
    requires Line(l) && |pre| <= i < |pre| + |l| + 2
    ensures NameAt(pre + l + BREAK + post, i) <==> i == |pre| && CrlfCount(pre) == 2 && Named(l)
  {
    hide CrlfCount;
    var s := pre + l + BREAK + post;
    if i == |pre| {
      assert s[..i] == pre;
      assert forall j :: 0 <= j < |l| ==> s[i + j] == l[j];
      assert s[i + |l|] == CR;
      NameInLine(s, i, l);
    } else {
      LineCounts(pre, l, post, i);
    }
  }

  /** A name that starts with a line lies in that line. */
  lemma NameInLine(s: seq<byte>, i: nat, l: seq<byte>)
    requires l != [] && i + |l| + 1 < |s| && s[i + |l|] == CR
    requires forall j :: 0 <= j < |l| ==> s[i + j] == l[j]
    ensures NameAt(s, i) <==> CrlfCount(s[..i]) == 2 && Named(l)
  {
    hide CrlfCount;
    if NameAt(s, i) && |l| < |NAME| {
      var k := |l|;
      assert Lower(s[i + k]) == NAME[k];
      NameHasNoLineBreak(k);
    }
  }

  /** A run of complete lines holds no terminator and, if none is the header, no match. */
  lemma {:induction false} Walk(pre: seq<byte>, ls: seq<seq<byte>>, post: seq<byte>, m: nat)
    requires AllLines(ls) && |pre| < m <= |pre| + |Lines(ls)|
    ensures CrlfCount((pre + Lines(ls) + post)[..m]) != 4
    ensures m == |pre| + |Lines(ls)| ==> CrlfCount(pre + Lines(ls)) == 2
    ensures NoneNamed(ls) || (CrlfCount(pre) != 2 && NoneNamed(ls[1..])) ==>
              !NameAt(pre + Lines(ls) + post, m - 1)
    decreases |ls|
  {
    hide CrlfCount, NameAt, Named, NoneNamed;
    var l, rest := ls[0], Lines(ls[1..]);
    var s := pre + Lines(ls) + post;
    var pre' := pre + l + BREAK;
    assert s == pre' + (rest + post) == pre' + rest + post;
    if m <= |pre'| {
      LineCounts(pre, l, rest + post, m);
      LineNames(pre, l, rest + post, m - 1);
      NoneNamedHead(ls);
      if m == |pre| + |Lines(ls)| {
        assert s[..m] == pre + Lines(ls);
      }
    } else {
      Walk(pre', ls[1..], post, m);
      NoneNamedTail(ls);
      assert pre + Lines(ls) == pre' + rest;
    }
  }

  lemma NoneNamedHead(ls: seq<seq<byte>>)
    requires |ls| > 0
    ensures NoneNamed(ls) ==> !Named(ls[0])
  {
  }

  lemma NoneNamedTail(ls: seq<seq<byte>>)
    requires |ls| > 0
    ensures NoneNamed(ls) ==> NoneNamed(ls[1..])
  {
  }

  /** A whole response: the lines up to the header, the header line, the lines after it, the blank
      line, and then whatever the server sends next. */
  function Response(front: seq<seq<byte>>, accept: seq<byte>, back: seq<seq<byte>>): seq<byte> {
    Lines(front) + accept + BREAK + Lines(back) + BREAK
  }

  lemma {:induction false} ResponseHead(
    front: seq<seq<byte>>, accept: seq<byte>, back: seq<seq<byte>>, rest: seq<byte>)
    requires AllLines(front) && Line(accept) && AllLines(back)
    ensures FindHead(Response(front, accept, back) + rest, 0) == Some(|Response(front, accept, back)|)
  {
    hide CrlfCount, Lines;
    var n := |Response(front, accept, back)|;
    var s := Response(front, accept, back) + rest;
    var pre1 := Lines(front);
    var pre2 := pre1 + accept + BREAK;
    var pre3 := pre2 + Lines(back);
    assert s == pre1 + (accept + BREAK + Lines(back) + BREAK + rest);
    assert s == [] + Lines(front) + (accept + BREAK + Lines(back) + BREAK + rest);
    assert s == pre1 + accept + BREAK + (Lines(back) + BREAK + rest);
    assert s == pre2 + Lines(back) + (BREAK + rest);
    forall m | 0 <= m < n
      ensures CrlfCount(s[..m]) != 4
    {
      if m == 0 {
        NoCount(s);
      } else if m <= |pre1| {
        Walk([], front, accept + BREAK + Lines(back) + BREAK + rest, m);
      } else if m <= |pre2| {
        LineCounts(pre1, accept, Lines(back) + BREAK + rest, m);
      } else if m <= |pre3| {
        Walk(pre2, back, BREAK + rest, m);
      } else {
        EndOfLines(pre1, accept, back);
        assert s[..m] == pre3 + [CR];
        BlankLine(pre3);
      }
    }
    EndOfLines(pre1, accept, back);
    BlankLine(pre3);
    assert s[..n] == pre3 + BREAK;
    HeadIs(s, n);
  }

  lemma NoCount(s: seq<byte>)
    ensures CrlfCount(s[..0]) == 0
  {
  }

  lemma EndOfLines(pre: seq<byte>, accept: seq<byte>, back: seq<seq<byte>>)
    requires Line(accept) && AllLines(back)
    ensures CrlfCount(pre + accept + BREAK + Lines(back)) == 2
  {
    AfterLine(pre, accept);
    var pre2 := pre + accept + BREAK;
    if |back| == 0 {
      assert pre2 + Lines(back) == pre2;
    } else {
      Walk(pre2, back, [], |pre2| + |Lines(back)|);
    }
  }

  lemma BlankLine(pre: seq<byte>)
    requires CrlfCount(pre) == 2
    ensures CrlfCount(pre + [CR]) == 3 && CrlfCount(pre + BREAK) == 4
  {
    assert (pre + [CR])[..|pre|] == pre;
    assert (pre + BREAK)[..|pre| + 1] == pre + [CR];
  }

  /** The header line is the first match. */
  lemma {:induction false} ResponseName(
    front: seq<seq<byte>>, accept: seq<byte>, back: seq<seq<byte>>, rest: seq<byte>, n: nat)
    requires |front| > 0 && AllLines(front) && NoneNamed(front[1..])
    requires Line(accept) && Named(accept)
    requires |Lines(front)| < n <= |Response(front, accept, back) + rest|
    ensures FindName(Response(front, accept, back) + rest, 0, n) == Some(|Lines(front)|)
  {
    hide CrlfCount, NameAt, Named, NoneNamed, FindName;
    var s := Response(front, accept, back) + rest;
    var pre1 := Lines(front);
    var post := Lines(back) + BREAK + rest;
    assert s == [] + Lines(front) + (accept + BREAK + post);
    assert s == pre1 + accept + BREAK + post;
    NoCount([]);
    forall i | 0 <= i < |pre1|
      ensures !NameAt(s, i)
    {
      Walk([], front, accept + BREAK + post, i + 1);
    }
    assert pre1 == [] + Lines(front);
    Walk([], front, [], |pre1|);
    LineNames(pre1, accept, post, |pre1|);
  }

  /** An acceptable answer to the upgrade request of a session that waits for `key`. */
  ghost predicate Welcome(
    key: seq<byte>, front: seq<seq<byte>>, name: seq<byte>, spaces: seq<byte>, back: seq<seq<byte>>, sp: nat) {
    && |front| > 0 && AllLines(front) && NoneNamed(front[1..]) && AllLines(back)
    && 1 <= sp && sp + 4 <= |front[0]| && front[0][sp..sp + 4] == [SP] + CODE_101
    && (forall m :: 1 <= m < sp ==> front[0][m] != SP)
    && |name| == |NAME| && Named(name)
    && (forall m :: 0 <= m < |spaces| ==> spaces[m] == SP)
    && key != [] && key[0] != SP && CR !in key && LF !in key
  }

  /** Acceptance: on a response whose status line says 101 after its first space and whose first
      Sec-WebSocket-Accept line carries the key after any number of spaces, the scanner says yes
      and consumes exactly the response, whatever follows it. */
  lemma Accepted(
    key: seq<byte>, front: seq<seq<byte>>, name: seq<byte>, spaces: seq<byte>, back: seq<seq<byte>>,
    rest: seq<byte>, sp: nat)
    requires Welcome(key, front, name, spaces, back, sp)
    ensures var response := Response(front, name + spaces + key, back);
            ReadHandshake(key, response + rest) == (|response|, Ok)
  {
    hide FindHead, FindName, SkipSpaces, LineEnd, Switching, Named, NoneNamed, Lines, Line, AllLines, CODE_101;
    var accept := name + spaces + key;
    NamedLine(name, spaces, key);
    var response := Response(front, accept, back);
    var s, n := response + rest, |response|;
    ResponseHead(front, accept, back, rest);
    ResponseName(front, accept, back, rest, n);
    ResponseParts(front, accept, back, rest);
    SwitchingIs(s, n, front[0], sp);
    ValueOf(s, |Lines(front)|, name, spaces, key);
  }

  lemma ResponseParts(front: seq<seq<byte>>, accept: seq<byte>, back: seq<seq<byte>>, rest: seq<byte>)
    requires |front| > 0
    ensures var response := Response(front, accept, back);
            var s, at := response + rest, |Lines(front)|;
            && |front[0]| <= |response| && s[..|front[0]|] == front[0]
            && at + |accept| < |response| && s[at..at + |accept|] == accept && s[at + |accept|] == CR
  {
    hide Lines;
    FirstLine(front);
    var tail := BREAK + Lines(back) + BREAK + rest;
    var s := Lines(front) + (accept + tail);
    assert Response(front, accept, back) + rest == s;
    assert s[..|front[0]|] == Lines(front)[..|front[0]|];
  }

  lemma SwitchingIs(s: seq<byte>, n: nat, line: seq<byte>, sp: nat)
    requires 1 <= sp && sp + 4 <= |line| <= n <= |s| && s[..|line|] == line
    requires line[sp..sp + 4] == [SP] + CODE_101
    requires forall m :: 1 <= m < sp ==> line[m] != SP
    ensures Switching(s, n)
  {
    hide FindSpace, CODE_101;
    assert forall m :: 0 <= m < |line| ==> s[m] == line[m];
    assert line[sp..sp + 4][0] == SP && s[sp] == SP;
    assert FindSpace(s, 1, n) == sp;
    assert s[sp + 1..sp + 4] == line[sp..sp + 4][1..];
    assert ([SP] + CODE_101)[1..] == CODE_101;
  }

  lemma FirstLine(front: seq<seq<byte>>)
    requires |front| > 0
    ensures |front[0]| <= |Lines(front)| && Lines(front)[..|front[0]|] == front[0]
  {
  }

  lemma NamedLine(name: seq<byte>, spaces: seq<byte>, key: seq<byte>)
    requires |name| == |NAME| && Named(name)
    requires forall m :: 0 <= m < |spaces| ==> spaces[m] == SP
    requires key != [] && CR !in key && LF !in key
    ensures Line(name + spaces + key) && Named(name + spaces + key)
  {
    forall j | 0 <= j < |name|
      ensures name[j] !in {CR, LF}
    {
      NameHasNoLineBreak(j);
    }
  }

  lemma ValueOf(s: seq<byte>, at: nat, name: seq<byte>, spaces: seq<byte>, key: seq<byte>)
    requires |name| == |NAME| && at + |name + spaces + key| < |s|
    requires s[at..at + |name + spaces + key|] == name + spaces + key
    requires s[at + |name + spaces + key|] == CR
    requires forall m :: 0 <= m < |spaces| ==> spaces[m] == SP
    requires key != [] && key[0] != SP && CR !in key && LF !in key
    ensures var k := SkipSpaces(s, at + |NAME|);
            s[k..LineEnd(s, k)] == key
  {
    hide SkipSpaces, LineEnd;
    var line := name + spaces + key;
    assert forall j :: 0 <= j < |line| ==> s[at + j] == line[j];
    var k := at + |NAME| + |spaces|;
    forall m | at + |NAME| <= m < k
      ensures s[m] == SP
    {
      assert s[at + (m - at)] == line[m - at] == spaces[m - at - |NAME|];
    }
    forall m | k <= m < k + |key|
      ensures s[m] == key[m - k] && s[m] !in {CR, LF}
    {
      assert s[at + (m - at)] == line[m - at] == key[m - k];
    }
    assert s[k] == key[0];
    assert SkipSpaces(s, at + |NAME|) == k;
    assert LineEnd(s, k) == k + |key|;
  }
}
