/** What the upgrade response scanner guarantees. */
module HandshakeLaws {
  import opened Bytes
  import opened Options
  import opened Handshakes

  // ----- A complete head is final: later bytes change nothing

  /** Every byte that is neither CR nor LF restarts the count. */
  lemma {:induction false} CountAfter(s: seq<byte>, i: nat)
    requires i < |s| && s[i] !in {CR, LF}
    ensures CrlfCount(s) <= |s| - 1 - i
  {
    if i < |s| - 1 {
      CountAfter(s[..|s| - 1], i);
    }
  }

  lemma LastIsLf(s: seq<byte>, n: nat)
    requires FindHead(s, 0) == Some(n)
    ensures 4 <= n <= |s| && s[n - 1] == LF
  {
    hide FindHead, AdvanceCrlf, CrlfCount;
    CountBound(s[..n]);
    CountStep(s, n);
    AdvanceToFour(CrlfCount(s[..n - 1]), s[n - 1]);
  }

  lemma CountStep(s: seq<byte>, n: nat)
    requires 1 <= n <= |s|
    ensures CrlfCount(s[..n]) == AdvanceCrlf(CrlfCount(s[..n - 1]), s[n - 1])
  {
    assert s[..n][..n - 1] == s[..n - 1];
  }

  lemma AdvanceToFour(count: nat, chr: byte)
    requires AdvanceCrlf(count, chr) == 4 && count != 4
    ensures count == 3 && chr == LF
  {
  }

  lemma {:induction false} CountBound(s: seq<byte>)
    ensures CrlfCount(s) <= |s|
  {
    if |s| > 0 {
      CountBound(s[..|s| - 1]);
    }
  }

  lemma HeadStable(s: seq<byte>, t: seq<byte>, n: nat)
    requires FindHead(s, 0) == Some(n)
    ensures FindHead(s + t, 0) == Some(n)
  {
    forall m | 0 <= m <= n
      ensures (s + t)[..m] == s[..m]
    {
    }
    HeadIs(s + t, n);
  }

  lemma SameSpace(s: seq<byte>, t: seq<byte>, n: nat)
    requires 1 <= n <= |s|
    ensures FindSpace(s + t, 1, n) == FindSpace(s, 1, n)
  {
    hide FindSpace;
    var r, r' := FindSpace(s, 1, n), FindSpace(s + t, 1, n);
    assert (s + t)[r] == s[r] && (s + t)[r'] == s[r'];
  }

  /** The status bytes lie inside the head. */
  lemma SwitchingStable(s: seq<byte>, t: seq<byte>, n: nat)
    requires FindHead(s, 0) == Some(n)
    ensures 4 <= n <= |s| && Switching(s + t, n) == Switching(s, n)
  {
    hide FindHead, FindSpace, CrlfCount, CODE_101;
    LastIsLf(s, n);
    SameSpace(s, t, n);
    var sp := FindSpace(s, 1, n);
    if sp != 0 {
      assert s[..n][sp] == s[sp];
      CountAfter(s[..n], sp);
      assert sp + 4 < n;
      assert (s + t)[sp + 1..sp + 4] == s[sp + 1..sp + 4];
    }
  }

  lemma NameHasNoLineBreak(j: nat)
    requires j < |NAME|
    ensures NAME[j] != Lower(CR) && NAME[j] != Lower(LF) && NAME[j] != Lower(SP)
  {
  }

  /** A matching name cannot reach over the end of the head. */
  lemma NameInside(s: seq<byte>, i: nat, n: nat)
    requires i < n <= |s| && s[n - 1] == LF && NameAt(s, i)
    ensures i + |NAME| < n
  {
    if n - 1 < i + |NAME| {
      var j := n - 1 - i;
      assert Lower(s[i + j]) == NAME[j];
      NameHasNoLineBreak(j);
    }
  }

  lemma NameStable(s: seq<byte>, t: seq<byte>, i: nat, n: nat)
    requires i < n <= |s| && s[n - 1] == LF
    ensures NameAt(s + t, i) == NameAt(s, i)
  {
    assert (s + t)[..i] == s[..i];
    if NameAt(s + t, i) {
      NameInside(s + t, i, n);
      forall j | 0 <= j < |NAME|
        ensures Lower(s[i + j]) == NAME[j]
      {
        assert (s + t)[i + j] == s[i + j];
      }
    }
  }

  /** The compared value starts and ends inside the head. */
  lemma ValueStable(s: seq<byte>, t: seq<byte>, n: nat)
    requires 1 <= n <= |s| && s[n - 1] == LF
    ensures Value(s + t, n) == Value(s, n)
  {
    hide NameAt, SkipSpaces, LineEnd;
    forall i | 0 <= i < n
      ensures NameAt(s + t, i) == NameAt(s, i)
    {
      NameStable(s, t, i, n);
    }
    assert FindName(s + t, 0, n) == FindName(s, 0, n);
    var k := ValueStart(s, n);
    assert k < n && ValueStart(s + t, n) == k by {
      match FindName(s, 0, n)
      case None =>
      case Some(i) =>
        NameInside(s, i, n);
        SameSkip(s, t, i + |NAME|, n);
    }
    SameLineEnd(s, t, k, n);
    assert (s + t)[k..LineEnd(s, k)] == s[k..LineEnd(s, k)];
  }

  lemma SameSkip(s: seq<byte>, t: seq<byte>, i: nat, n: nat)
    requires i < n <= |s| && s[n - 1] == LF
    ensures SkipSpaces(s, i) < n && SkipSpaces(s + t, i) == SkipSpaces(s, i)
  {
    hide SkipSpaces;
    var r, r' := SkipSpaces(s, i), SkipSpaces(s + t, i);
    assert (s + t)[r] == s[r];
    assert r' < |s| ==> (s + t)[r'] == s[r'];
  }

  lemma SameLineEnd(s: seq<byte>, t: seq<byte>, i: nat, n: nat)
    requires i < n <= |s| && s[n - 1] == LF
    ensures LineEnd(s, i) < n && LineEnd(s + t, i) == LineEnd(s, i)
  {
    hide LineEnd;
    var r, r' := LineEnd(s, i), LineEnd(s + t, i);
    assert (s + t)[r] == s[r];
    assert r' < |s| ==> (s + t)[r'] == s[r'];
  }

  /** Once the head is complete its verdict and its length are settled, whatever follows. */
  lemma ReadStable(key: seq<byte>, s: seq<byte>, t: seq<byte>)
    requires FindHead(s, 0).Some?
    ensures ReadHandshake(key, s + t) == ReadHandshake(key, s)
    ensures 4 <= ReadHandshake(key, s).0 <= |s|
  {
    hide FindHead, Switching, Value;
    var n := FindHead(s, 0).value;
    HeadStable(s, t, n);
    LastIsLf(s, n);
    SwitchingStable(s, t, n);
    ValueStable(s, t, n);
  }

  // ----- Where the head ends

  /** `s` ends in CR LF+ CR+, respectively in CR LF+ CR+ LF. */
  predicate EndsInCr(s: seq<byte>) { |s| > 0 && s[|s| - 1] == CR }

  predicate EndsInLine(s: seq<byte>) {
    |s| > 0 && s[|s| - 1] == LF && (EndsInCr(s[..|s| - 1]) || EndsInLine(s[..|s| - 1]))
  }

  predicate EndsInLineCr(s: seq<byte>) {
    |s| > 0 && s[|s| - 1] == CR && (EndsInLine(s[..|s| - 1]) || EndsInLineCr(s[..|s| - 1]))
  }

  predicate EndsInBlank(s: seq<byte>) {
    |s| > 0 && s[|s| - 1] == LF && EndsInLineCr(s[..|s| - 1])
  }

  /** What each value of the count says about the end of the input. */
  lemma {:induction false} CountMeans(s: seq<byte>)
    requires forall m :: 0 <= m < |s| ==> CrlfCount(s[..m]) != 4
    ensures CrlfCount(s) <= 4
    ensures CrlfCount(s) == 4 <==> EndsInBlank(s)
    ensures CrlfCount(s) == 3 <==> EndsInLineCr(s)
    ensures CrlfCount(s) == 2 <==> EndsInLine(s) && !EndsInBlank(s)
    ensures CrlfCount(s) % 2 == 1 <==> EndsInCr(s)
  {
    if |s| > 0 {
      var t := s[..|s| - 1];
      forall m | 0 <= m < |t|
        ensures t[..m] == s[..m]
      {
      }
      CountMeans(t);
      assert CrlfCount(t) != 4;
      assert EndsInBlank(t) ==> false;
    }
  }

  /** The head is the shortest prefix that ends in CR LF+ CR+ LF, and nothing is consumed exactly
      when there is no such prefix. */
  lemma HeadEndsInBlank(s: seq<byte>)
    ensures FindHead(s, 0).None? <==> forall m :: 0 <= m <= |s| ==> !EndsInBlank(s[..m])
    ensures FindHead(s, 0).Some? ==> EndsInBlank(s[..FindHead(s, 0).value])
    ensures FindHead(s, 0).Some? ==>
              forall m :: 0 <= m < FindHead(s, 0).value ==> !EndsInBlank(s[..m])
  {
    var n := if FindHead(s, 0).None? then |s| + 1 else FindHead(s, 0).value;
    forall m | 0 <= m <= |s| && m <= n
      ensures CrlfCount(s[..m]) == 4 <==> EndsInBlank(s[..m])
    {
      forall k | 0 <= k < m
        ensures s[..m][..k] == s[..k]
      {
      }
      CountMeans(s[..m]);
    }
  }

  /** CR and LF occur only as the pair CR LF. */
  ghost predicate Paired(s: seq<byte>) {
    && (forall i :: 0 <= i < |s| && s[i] == CR ==> i + 1 < |s| && s[i + 1] == LF)
    && (forall i :: 0 <= i < |s| && s[i] == LF ==> 0 < i && s[i - 1] == CR)
  }

  lemma NoDoubleCr(s: seq<byte>, i: nat)
    requires Paired(s) && i + 1 < |s|
    ensures s[i] != CR || s[i + 1] != CR
  {
  }

  /** In text whose line breaks are all CR LF, the head ends with the first CR LF CR LF. */
  lemma PairedBlank(s: seq<byte>, m: nat)
    requires Paired(s) && m <= |s|
    ensures EndsInBlank(s[..m]) <==> m >= 4 && s[m - 4..m] == [CR, LF, CR, LF]
  {
    var t := s[..m];
    if m >= 4 {
      assert s[m - 4..m] == [t[m - 4], t[m - 3], t[m - 2], t[m - 1]];
      assert t[..m - 1][..m - 2] == t[..m - 2] && t[..m - 2][..m - 3] == t[..m - 3];
      if s[m - 4..m] == [CR, LF, CR, LF] {
        assert EndsInCr(t[..m - 3]);
        assert EndsInLine(t[..m - 2]);
        assert EndsInLineCr(t[..m - 1]);
      }
    }
    if EndsInBlank(t) {
      var a := t[..m - 1];
      assert s[m - 2] == CR;
      assert EndsInLineCr(a);
      var b := a[..m - 2];
      if m >= 3 {
        NoDoubleCr(s, m - 3);
        assert b[|b| - 1] == s[m - 3];
      }
      assert !EndsInLineCr(b);
      assert EndsInLine(a[..|a| - 1]);
      assert s[m - 3] == LF && s[m - 4] == CR;
    }
  }

  /** Outside such text the terminator is looser: a bare LF in the middle is accepted. */
  lemma LooseTerminator()
    ensures FindHead([CR, LF, LF, CR, LF], 0) == Some(5)
  {
    var s := [CR, LF, LF, CR, LF];
    CountStep(s, 1);
    CountStep(s, 2);
    CountStep(s, 3);
    CountStep(s, 4);
    CountStep(s, 5);
    assert s[..5] == s;
    HeadIs(s, 5);
  }
}
