/** What a connection asks of a protocol, and the loop that feeds received bytes to it. */
module Protocols {
  import opened Bytes

  datatype Status = Ok | Close | Error

  /** One callback: how many readable bytes it consumed and what it wrote. */
  datatype Reply<S> = Reply(session: S, consumed: nat, output: seq<byte>, status: Status)

  /** A callback sees its session, the readable bytes and the room left for writing. */
  type Callback<!S> = (S, seq<byte>, nat) -> Reply<S>

  /** `create(n)` is the session of the n-th dial. */
  datatype Protocol<!S> = Protocol(
    create: nat -> S,
    onConnect: Callback<S>,
    onData: Callback<S>,
    onShutdown: Callback<S>,
    heartbeat: Callback<S>)

  /** A callback reads and writes only inside the views it was given. */
  ghost predicate Lawful<S(!new)>(f: Callback<S>) {
    forall s, input, room ::
      f(s, input, room).consumed <= |input| && |f(s, input, room).output| <= room
  }

  ghost predicate LawfulProtocol<S(!new)>(p: Protocol<S>) {
    Lawful(p.onConnect) && Lawful(p.onData) && Lawful(p.onShutdown) && Lawful(p.heartbeat)
  }

  /** The outcome of feeding: the bytes left unread and everything written. */
  datatype Fed<S> = Fed(session: S, rest: seq<byte>, output: seq<byte>, status: Status)

  function Prepend<S>(output: seq<byte>, fed: Fed<S>): Fed<S> {
    fed.(output := output + fed.output)
  }

  /** Calls `f` until nothing is left, it makes no progress, or it gives a verdict; every call
      finds the same room. */
  ghost function Feed<S(!new)>(f: Callback<S>, s: S, input: seq<byte>, room: nat): Fed<S>
    requires Lawful(f)
    decreases |input|
  {
    if input == [] then Fed(s, [], [], Ok)
    else
      var r := f(s, input, room);
      if r.status != Ok || r.consumed == 0 then Fed(r.session, input[r.consumed..], r.output, r.status)
      else Prepend(r.output, Feed(f, r.session, input[r.consumed..], room))
  }

  /** Feeding one more chunk to whatever an earlier feed left behind. */
  ghost function FeedMore<S(!new)>(f: Callback<S>, before: Fed<S>, chunk: seq<byte>, room: nat): Fed<S>
    requires Lawful(f)
  {
    if before.status != Ok then before.(rest := before.rest + chunk)
    else Prepend(before.output, Feed(f, before.session, before.rest + chunk, room))
  }

  /** Feeding a stream that arrives in chunks. */
  ghost function FeedChunks<S(!new)>(f: Callback<S>, s: S, chunks: seq<seq<byte>>, room: nat): Fed<S>
    requires Lawful(f)
  {
    if |chunks| == 0 then Fed(s, [], [], Ok)
    else FeedMore(f, FeedChunks(f, s, chunks[..|chunks| - 1], room), chunks[|chunks| - 1], room)
  }

  /** A call that neither reads, writes, changes its session nor gives a verdict: it waits. */
  ghost predicate Waits<S(!new)>(f: Callback<S>, s: S, input: seq<byte>, room: nat) {
    f(s, input, room) == Reply(s, 0, [], Ok)
  }

  /** A call either waits, or acts in a way that later bytes do not change. */
  ghost predicate Stable<S(!new)>(f: Callback<S>, room: nat) {
    forall s, input :: Waits(f, s, input, room) || Acts(f, s, input, room)
  }

  ghost predicate Acts<S(!new)>(f: Callback<S>, s: S, input: seq<byte>, room: nat) {
    var r := f(s, input, room);
    (r.consumed > 0 || r.status != Ok) && forall more :: f(s, input + more, room) == r
  }

  /** For a stable callback it does not matter where a byte stream is cut. */
  lemma {:induction false} CutAnywhere<S(!new)>(f: Callback<S>, s: S, a: seq<byte>, b: seq<byte>, room: nat)
    requires Lawful(f) && Stable(f, room)
    ensures Feed(f, s, a + b, room) == FeedMore(f, Feed(f, s, a, room), b, room)
    decreases |a|
  {
    if a == [] {
      assert a + b == b == [] + b;
      assert [] + Feed(f, s, b, room).output == Feed(f, s, b, room).output;
    } else if Waits(f, s, a, room) {
      assert a[0..] == a;
      assert [] + Feed(f, s, a + b, room).output == Feed(f, s, a + b, room).output;
    } else {
      var r := f(s, a, room);
      assert f(s, a + b, room) == r;
      assert (a + b)[r.consumed..] == a[r.consumed..] + b;
      if r.status == Ok && r.consumed > 0 {
        var left := a[r.consumed..];
        CutAnywhere(f, r.session, left, b, room);
        var first := Feed(f, r.session, left, room);
        Regroup(r.output, first.output, Feed(f, first.session, first.rest + b, room).output);
      }
    }
  }

  /** However a byte stream is cut into chunks, the outcome is that of the whole stream. */
  lemma {:induction false} AnyChunking<S(!new)>(f: Callback<S>, s: S, chunks: seq<seq<byte>>, room: nat)
    requires Lawful(f) && Stable(f, room)
    ensures FeedChunks(f, s, chunks, room) == Feed(f, s, Concat(chunks), room)
  {
    if |chunks| > 0 {
      var init, last := chunks[..|chunks| - 1], chunks[|chunks| - 1];
      AnyChunking(f, s, init, room);
      CutAnywhere(f, s, Concat(init), last, room);
      ConcatLast(init, last);
      assert init + [last] == chunks;
    }
  }

  // ----- Room that comes and goes

  /** The loop's calls one by one: call number `i` finds `rooms[i]` bytes of room. */
  ghost function Calls<S(!new)>(f: Callback<S>, s: S, input: seq<byte>, rooms: seq<nat>): Fed<S>
    requires Lawful(f)
  {
    if |rooms| == 0 then Fed(s, input, [], Ok)
    else
      var g := Calls(f, s, input, rooms[..|rooms| - 1]);
      var r := f(g.session, g.rest, rooms[|rooms| - 1]);
      Fed(r.session, g.rest[r.consumed..], g.output + r.output, r.status)
  }

  /** After these calls the loop still wants another one. */
  ghost predicate GoesOn<S(!new)>(f: Callback<S>, s: S, input: seq<byte>, rooms: seq<nat>)
    requires Lawful(f)
  {
    var g := Calls(f, s, input, rooms);
    g.status == Ok && g.rest != []
    && (|rooms| > 0 ==> |g.rest| < |Calls(f, s, input, rooms[..|rooms| - 1]).rest|)
  }

  /** These are exactly the calls the loop makes. */
  ghost predicate Complete<S(!new)>(f: Callback<S>, s: S, input: seq<byte>, rooms: seq<nat>)
    requires Lawful(f)
  {
    (forall k :: 0 <= k < |rooms| ==> GoesOn(f, s, input, rooms[..k])) && !GoesOn(f, s, input, rooms)
  }

  /** Calls with these rooms lead from one session, input and output to another. */
  ghost predicate Reached<S(!new)>(
    f: Callback<S>, s0: S, input0: seq<byte>, written0: seq<byte>, rooms: seq<nat>,
    s: S, input: seq<byte>, written: seq<byte>)
  {
    Lawful(f) && written0 <= written
    && Calls(f, s0, input0, rooms) == Fed(s, input, written[|written0|..], Ok)
    && forall k :: 0 <= k < |rooms| ==> GoesOn(f, s0, input0, rooms[..k])
  }

  lemma ReachedStart<S(!new)>(f: Callback<S>, s: S, input: seq<byte>, written: seq<byte>)
    requires Lawful(f)
    ensures Reached(f, s, input, written, [], s, input, written)
    ensures GoesOn(f, s, input, []) <==> input != []
  {
  }

  lemma ReachedNext<S(!new)>(
    f: Callback<S>, s0: S, input0: seq<byte>, written0: seq<byte>, rooms: seq<nat>,
    s: S, input: seq<byte>, written: seq<byte>, room: nat)
    requires Reached(f, s0, input0, written0, rooms, s, input, written)
    requires GoesOn(f, s0, input0, rooms) && f(s, input, room).status == Ok
    ensures var r := f(s, input, room);
            r.consumed <= |input|
            && Reached(f, s0, input0, written0, rooms + [room], r.session, input[r.consumed..], written + r.output)
            && (GoesOn(f, s0, input0, rooms + [room]) <==> r.consumed > 0 && r.consumed < |input|)
  {
    hide Lawful;
    var r := f(s, input, room);
    assert r.consumed <= |input| by { LawfulAt(f, s, input, room); }
    var next := rooms + [room];
    assert next[..|rooms|] == rooms;
    assert (written + r.output)[|written0|..] == written[|written0|..] + r.output;
    forall k | 0 <= k < |next|
      ensures GoesOn(f, s0, input0, next[..k])
    {
      assert next[..k] == rooms[..k];
      if k == |rooms| {
        assert rooms[..k] == rooms;
      }
    }
  }

  lemma ReachedEnd<S(!new)>(
    f: Callback<S>, s0: S, input0: seq<byte>, written0: seq<byte>, rooms: seq<nat>,
    s: S, input: seq<byte>, written: seq<byte>)
    requires Reached(f, s0, input0, written0, rooms, s, input, written)
    requires !GoesOn(f, s0, input0, rooms)
    ensures Complete(f, s0, input0, rooms)
  {
  }

  lemma LawfulAt<S(!new)>(f: Callback<S>, s: S, input: seq<byte>, room: nat)
    requires Lawful(f)
    ensures f(s, input, room).consumed <= |input| && |f(s, input, room).output| <= room
  {
  }

  /** `need` says how much room a call wants: with that much, the exact room does not matter. */
  ghost predicate Sated<S(!new)>(f: Callback<S>, need: (S, seq<byte>) -> nat) {
    forall s, input, r, r' :: need(s, input) <= r <= r' ==> f(s, input, r) == f(s, input, r')
  }

  /** No call finds less room than it wants, nor more than the capacity. */
  ghost predicate Unstarved<S(!new)>(
    f: Callback<S>, need: (S, seq<byte>) -> nat, s: S, input: seq<byte>, rooms: seq<nat>, cap: nat)
    requires Lawful(f)
  {
    forall k :: 0 <= k < |rooms| ==>
      var g := Calls(f, s, input, rooms[..k]);
      need(g.session, g.rest) <= rooms[k] <= cap
  }

  /** Every call behaved as it would have with full room. */
  ghost predicate Unhindered<S(!new)>(f: Callback<S>, s: S, input: seq<byte>, rooms: seq<nat>, cap: nat)
    requires Lawful(f)
  {
    forall k :: 0 <= k < |rooms| ==>
      var g := Calls(f, s, input, rooms[..k]);
      f(g.session, g.rest, rooms[k]) == f(g.session, g.rest, cap)
  }

  /** Feeding can be resumed after one more call. */
  lemma FeedStep<S(!new)>(f: Callback<S>, whole: Fed<S>, h: Fed<S>, cap: nat)
    requires Lawful(f) && h.rest != [] && whole == Prepend(h.output, Feed(f, h.session, h.rest, cap))
    ensures var r := f(h.session, h.rest, cap);
            r.consumed <= |h.rest| &&
            var g := Fed(r.session, h.rest[r.consumed..], h.output + r.output, r.status);
            if r.status == Ok && r.consumed > 0
            then whole == Prepend(g.output, Feed(f, g.session, g.rest, cap)) && (g.rest == [] ==> whole == g)
            else whole == g
  {
    var r := f(h.session, h.rest, cap);
    assert r.consumed <= |h.rest| by { LawfulAt(f, h.session, h.rest, cap); }
    if r.status == Ok && r.consumed > 0 {
      var rest := h.rest[r.consumed..];
      Regroup(h.output, r.output, Feed(f, r.session, rest, cap).output);
      if rest == [] {
        assert h.output + r.output + [] == h.output + r.output;
      }
    }
  }

  /** Feeding can be resumed after any number of calls. */
  lemma {:induction false} FeedAfterCalls<S(!new)>(
    f: Callback<S>, s: S, input: seq<byte>, rooms: seq<nat>, cap: nat, k: nat)
    requires Lawful(f) && k <= |rooms| && Unhindered(f, s, input, rooms, cap)
    requires forall j :: 0 <= j < |rooms| ==> GoesOn(f, s, input, rooms[..j])
    ensures var g := Calls(f, s, input, rooms[..k]);
            if k < |rooms| || GoesOn(f, s, input, rooms)
            then Feed(f, s, input, cap) == Prepend(g.output, Feed(f, g.session, g.rest, cap))
            else Feed(f, s, input, cap) == g
  {
    hide *;
    if k == 0 {
      FeedFromStart(f, s, input, rooms, cap);
    } else {
      FeedAfterCalls(f, s, input, rooms, cap, k - 1);
      var h := Calls(f, s, input, rooms[..k - 1]);
      assert GoesOn(f, s, input, rooms[..k - 1]);
      SomethingLeft(f, s, input, rooms[..k - 1]);
      UnhinderedAt(f, s, input, rooms, cap, k - 1);
      CallsNext(f, s, input, rooms, k);
      FeedStep(f, Feed(f, s, input, cap), h, cap);
      if k == |rooms| {
        assert rooms[..k] == rooms;
      } else {
        assert GoesOn(f, s, input, rooms[..k]);
      }
    }
  }

  lemma FeedFromStart<S(!new)>(f: Callback<S>, s: S, input: seq<byte>, rooms: seq<nat>, cap: nat)
    requires Lawful(f)
    ensures var g := Calls(f, s, input, rooms[..0]);
            Feed(f, s, input, cap) == Prepend(g.output, Feed(f, g.session, g.rest, cap))
            && (|rooms| == 0 && !GoesOn(f, s, input, rooms) ==> Feed(f, s, input, cap) == g)
  {
    hide Lawful;
    assert rooms[..0] == [];
    assert Calls(f, s, input, []) == Fed(s, input, [], Ok);
    assert [] + Feed(f, s, input, cap).output == Feed(f, s, input, cap).output;
  }

  lemma SomethingLeft<S(!new)>(f: Callback<S>, s: S, input: seq<byte>, rooms: seq<nat>)
    requires Lawful(f) && GoesOn(f, s, input, rooms)
    ensures Calls(f, s, input, rooms).status == Ok && Calls(f, s, input, rooms).rest != []
  {
    hide Lawful, Calls;
  }

  lemma UnhinderedAt<S(!new)>(f: Callback<S>, s: S, input: seq<byte>, rooms: seq<nat>, cap: nat, k: nat)
    requires Lawful(f) && Unhindered(f, s, input, rooms, cap) && k < |rooms|
    ensures var g := Calls(f, s, input, rooms[..k]);
            f(g.session, g.rest, rooms[k]) == f(g.session, g.rest, cap)
  {
  }

  /** The k-th call goes on from the ones before it. */
  lemma CallsNext<S(!new)>(f: Callback<S>, s: S, input: seq<byte>, rooms: seq<nat>, k: nat)
    requires Lawful(f) && 0 < k <= |rooms|
    ensures var h := Calls(f, s, input, rooms[..k - 1]);
            var r := f(h.session, h.rest, rooms[k - 1]);
            r.consumed <= |h.rest|
            && Calls(f, s, input, rooms[..k]) == Fed(r.session, h.rest[r.consumed..], h.output + r.output, r.status)
    ensures GoesOn(f, s, input, rooms[..k]) <==>
              var g := Calls(f, s, input, rooms[..k]);
              g.status == Ok && g.rest != [] && |g.rest| < |Calls(f, s, input, rooms[..k - 1]).rest|
  {
    assert rooms[..k][..k - 1] == rooms[..k - 1];
  }

  /** Calls that were not short of room have the outcome of feeding. */
  lemma CallsAreFeed<S(!new)>(f: Callback<S>, s: S, input: seq<byte>, rooms: seq<nat>, cap: nat)
    requires Lawful(f) && Complete(f, s, input, rooms) && Unhindered(f, s, input, rooms, cap)
    ensures Calls(f, s, input, rooms) == Feed(f, s, input, cap)
  {
    FeedAfterCalls(f, s, input, rooms, cap, |rooms|);
    assert rooms[..|rooms|] == rooms;
    if |rooms| == 0 {
      assert input == [];
    }
  }

  /** Room that is never too little gives the outcome of constant full room. */
  lemma RoomDoesNotMatter<S(!new)>(
    f: Callback<S>, need: (S, seq<byte>) -> nat, s: S, input: seq<byte>, rooms: seq<nat>, cap: nat)
    requires Lawful(f) && Sated(f, need)
    requires Complete(f, s, input, rooms) && Unstarved(f, need, s, input, rooms, cap)
    ensures Calls(f, s, input, rooms) == Feed(f, s, input, cap)
  {
    hide Complete, Lawful;
    forall k | 0 <= k < |rooms|
      ensures var g := Calls(f, s, input, rooms[..k]);
              f(g.session, g.rest, rooms[k]) == f(g.session, g.rest, cap)
    {
      var g := Calls(f, s, input, rooms[..k]);
      assert need(g.session, g.rest) <= rooms[k] <= cap;
    }
    CallsAreFeed(f, s, input, rooms, cap);
  }
}
