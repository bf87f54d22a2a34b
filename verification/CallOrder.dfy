/** The order in which a connection may call its protocol during one dial. */
module CallOrder {
  import opened Protocols

  datatype Call = Connect | Data | Beat | Shutdown(verdict: Status) | Teardown

  /** How far a dial has come: nothing called yet, in use, shutting down, shut down for good, torn
      down, or out of order. */
  datatype Stage = Fresh | Live | Shutting | Shut | Torn | Bad

  /** Ready for data; `connect` says whether the protocol has a connect handler. */
  predicate Ready(connect: bool, st: Stage) {
    st == Live || (st == Fresh && !connect)
  }

  function StageAfter(connect: bool, st: Stage, call: Call): Stage {
    match call
    case Connect => if st == Fresh && connect then Live else Bad
    case Data | Beat => if Ready(connect, st) then Live else Bad
    case Shutdown(verdict) =>
      if !Ready(connect, st) && st != Shutting then Bad
      else if verdict == Close then Shut
      else Shutting
    case Teardown => if st == Torn || st == Bad then Bad else Torn
  }

  function StageOf(connect: bool, trace: seq<Call>): Stage {
    if |trace| == 0 then Fresh
    else StageAfter(connect, StageOf(connect, trace[..|trace| - 1]), trace[|trace| - 1])
  }

  lemma StageAppend(connect: bool, trace: seq<Call>, call: Call)
    ensures StageOf(connect, trace + [call]) == StageAfter(connect, StageOf(connect, trace), call)
  {
    assert (trace + [call])[..|trace|] == trace;
  }

  /** The same order said at once: connect if there is a handler, data and heartbeats, shutdowns
      of which only the last may be final, and at most one teardown at the very end. */
  ghost predicate InOrder(connect: bool, trace: seq<Call>, a: nat, b: nat, c: nat) {
    && a <= b <= c <= |trace|
    && (connect && trace != [] && trace[0] != Teardown ==> a == 1)
    && (a == 1 ==> connect && trace[0] == Connect) && a <= 1
    && (c > 0 && connect ==> a == 1)
    && (forall i :: a <= i < b ==> trace[i] == Data || trace[i] == Beat)
    && (forall i :: b <= i < c ==> trace[i].Shutdown? && (trace[i].verdict == Close ==> i == c - 1))
    && (c < |trace| ==> c == |trace| - 1 && trace[c] == Teardown)
  }

  /** The automaton accepts exactly the traces of that shape. */
  lemma {:induction false} AcceptedIsInOrder(connect: bool, trace: seq<Call>)
    ensures StageOf(connect, trace) != Bad <==> exists a, b, c :: InOrder(connect, trace, a, b, c)
  {
    if StageOf(connect, trace) != Bad {
      var a, b, c := Shape(connect, trace);
    }
    forall a, b, c | InOrder(connect, trace, a, b, c)
      ensures StageOf(connect, trace) != Bad
    {
      OrderAccepted(connect, trace, a, b, c);
    }
  }

  lemma {:induction false} Shape(connect: bool, trace: seq<Call>) returns (a: nat, b: nat, c: nat)
    requires StageOf(connect, trace) != Bad
    ensures InOrder(connect, trace, a, b, c)
    ensures var st := StageOf(connect, trace);
            (st == Torn <==> c < |trace|) && (st == Fresh <==> trace == [])
            && (st == Live <==> trace != [] && b == |trace|)
            && (st == Shut <==> b < c == |trace| && trace[c - 1] == Shutdown(Close))
  {
    if trace == [] {
      return 0, 0, 0;
    }
    var init, call := trace[..|trace| - 1], trace[|trace| - 1];
    a, b, c := Shape(connect, init);
    assert forall i :: 0 <= i < |init| ==> trace[i] == init[i];
    match call
    case Connect => a, b, c := 1, 1, 1;
    case Data => b, c := |trace|, |trace|;
    case Beat => b, c := |trace|, |trace|;
    case Shutdown(_) => c := |trace|;
    case Teardown =>
  }

  lemma {:induction false} OrderAccepted(connect: bool, trace: seq<Call>, a: nat, b: nat, c: nat)
    requires InOrder(connect, trace, a, b, c)
    ensures var st := StageOf(connect, trace);
            st != Bad && (st == Torn <==> c < |trace|) && (st == Fresh <==> trace == [])
            && (trace != [] && b == |trace| ==> st == Live)
            && (b < c == |trace| ==> st == if trace[c - 1] == Shutdown(Close) then Shut else Shutting)
    decreases |trace|
  {
    if trace != [] {
      var n := |trace| - 1;
      var init := trace[..n];
      assert forall i :: 0 <= i < n ==> init[i] == trace[i];
      OrderAccepted(connect, init, Min(a, n), Min(b, n), Min(c, n));
    }
  }

  function Min(x: nat, y: nat): nat {
    if x < y then x else y
  }

  /** Only shutdowns and a teardown were added. */
  ghost predicate Quiet(before: seq<Call>, after: seq<Call>) {
    before <= after && forall i :: |before| <= i < |after| ==> after[i].Shutdown? || after[i] == Teardown
  }

  /** No protocol callback was made but teardowns. */
  ghost predicate OnlyTeardown(before: seq<Call>, after: seq<Call>) {
    before <= after && forall i :: |before| <= i < |after| ==> after[i] == Teardown
  }

  lemma OnlyTeardownRefl(a: seq<Call>)
    ensures OnlyTeardown(a, a)
  {
  }

  lemma OnlyTeardownTrans(a: seq<Call>, b: seq<Call>, c: seq<Call>)
    requires OnlyTeardown(a, b) && OnlyTeardown(b, c)
    ensures OnlyTeardown(a, c)
  {
  }
}
