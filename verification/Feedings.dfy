/** Normal operation as one long feeding: what a connection did piece by piece, compared with
    feeding everything it received at once. */
module Feedings {
  import opened Bytes
  import opened Protocols
  import opened CallOrder

  /** How normal operation began, `joined` being the session and `hello` what it had written by
      then; and how a shadow of the session fares that is fed the same bytes but gets no heartbeats
      and always finds full room: its state, and what it wrote. `tight` says that the session once
      found too little room to behave as with full room, and `astray` that the shadow once read
      otherwise than the session. */
  datatype Feeding<S> = Feeding(
    joined: S, hello: seq<byte>, shadow: S, echo: seq<byte>, tight: bool, astray: bool)

  /** What the connection has to show for it. */
  datatype Ledger<S> = Ledger(trace: seq<Call>, received: seq<byte>, session: S, rest: seq<byte>, written: seq<byte>)

  /** Normal operation began with the connect callback of the dial's session, if there is one,
      which said to go on. */
  ghost predicate Joined<S(!new)>(p: Protocol<S>, connect: bool, birth: S, joined: S, hello: seq<byte>, cap: nat) {
    var r := p.onConnect(birth, [], cap);
    if connect then r.status == Ok && joined == r.session && hello == r.output
    else joined == birth && hello == []
  }

  /** Sessions that are alike read alike and stay alike, and a heartbeat makes no difference. */
  ghost predicate Indifferent<S(!new)>(p: Protocol<S>, alike: (S, S) -> bool, cap: nat) {
    && (forall s :: alike(s, s))
    && (forall s, t, room :: alike(s, t) ==> alike(p.heartbeat(s, [], room).session, t))
    && (forall s, t, input :: alike(s, t) ==>
          var a, b := p.onData(s, input, cap), p.onData(t, input, cap);
          alike(a.session, b.session) && a.consumed == b.consumed && a.status == b.status)
  }

  /** Whatever makes no difference in reading is all that tells the session from its shadow. */
  ghost predicate Kin<S(!new)>(p: Protocol<S>, session: S, feeding: Feeding<S>, cap: nat) {
    forall alike: (S, S) -> bool ::
      Indifferent(p, alike, cap) ==> !feeding.astray && alike(session, feeding.shadow)
  }

  /** What does not depend on how far the feeding is. Without heartbeats and with room enough the
      shadow is the session itself. */
  ghost predicate Shadowed<S(!new)>(
    p: Protocol<S>, connect: bool, birth: S, feeding: Feeding<S>, l: Ledger<S>, cap: nat) {
    && Lawful(p.onData) && feeding.hello <= l.written
    && Joined(p, connect, birth, feeding.joined, feeding.hello, cap)
    && (!feeding.tight && Beat !in l.trace ==>
          !feeding.astray && feeding.shadow == l.session && l.written == feeding.hello + feeding.echo)
    && (!feeding.tight ==> Kin(p, l.session, feeding, cap))
  }

  /** The shadow is where feeding everything received at once leads. */
  ghost predicate FedSoFar<S(!new)>(
    p: Protocol<S>, connect: bool, birth: S, feeding: Feeding<S>, l: Ledger<S>, cap: nat) {
    && Shadowed(p, connect, birth, feeding, l, cap)
    && (!feeding.astray && Stable(p.onData, cap) ==>
          Feed(p.onData, feeding.joined, l.received, cap) == Fed(feeding.shadow, l.rest, feeding.echo, Ok))
  }

  /** The same in the middle of feeding: the shadow has yet to be fed what is left. */
  ghost predicate FedHalfway<S(!new)>(
    p: Protocol<S>, connect: bool, birth: S, feeding: Feeding<S>, l: Ledger<S>, cap: nat) {
    && Shadowed(p, connect, birth, feeding, l, cap)
    && (!feeding.astray && Stable(p.onData, cap) ==>
          Feed(p.onData, feeding.joined, l.received, cap)
          == Prepend(feeding.echo, Feed(p.onData, feeding.shadow, l.rest, cap)))
  }

  /** One data callback, and the same one on the shadow. */
  ghost function FeedBoth<S(!new)>(
    p: Protocol<S>, feeding: Feeding<S>, session: S, input: seq<byte>, room: nat, cap: nat): Feeding<S> {
    var r, full := p.onData(session, input, room), p.onData(session, input, cap);
    var t := p.onData(feeding.shadow, input, cap);
    feeding.(
      shadow := t.session, echo := feeding.echo + t.output,
      tight := feeding.tight || r != full,
      astray := feeding.astray || t.consumed != r.consumed || t.status != r.status)
  }

  /** Nothing has been received yet. */
  lemma FedNothing<S(!new)>(p: Protocol<S>, connect: bool, birth: S, l: Ledger<S>, cap: nat)
    requires Lawful(p.onData) && l.received == l.rest == []
    requires Joined(p, connect, birth, l.session, l.written, cap)
    ensures FedSoFar(p, connect, birth, Feeding(l.session, l.written, l.session, [], false, false), l, cap)
  {
    assert l.written + [] == l.written;
  }

  /** Fresh bytes arrive behind those that are left. */
  lemma FedFresh<S(!new)>(
    p: Protocol<S>, connect: bool, birth: S, feeding: Feeding<S>, l: Ledger<S>, bytes: seq<byte>, cap: nat)
    requires FedSoFar(p, connect, birth, feeding, l, cap)
    ensures FedHalfway(
              p, connect, birth, feeding, l.(received := l.received + bytes, rest := l.rest + bytes), cap)
  {
    hide Lawful, Stable, Joined, Kin;
    if !feeding.astray && Stable(p.onData, cap) {
      CutAnywhere(p.onData, feeding.joined, l.received, bytes, cap);
    }
  }

  /** One more callback; it goes on unless nothing was read. */
  lemma FedNext<S(!new)>(
    p: Protocol<S>, connect: bool, birth: S, feeding: Feeding<S>, l: Ledger<S>, room: nat, cap: nat)
    requires FedHalfway(p, connect, birth, feeding, l, cap)
    requires l.rest != [] && p.onData(l.session, l.rest, room).status == Ok
    ensures var r := p.onData(l.session, l.rest, room);
            r.consumed <= |l.rest| &&
            var feeding' := FeedBoth(p, feeding, l.session, l.rest, room, cap);
            var l' := Ledger(l.trace + [Data], l.received, r.session, l.rest[r.consumed..], l.written + r.output);
            if r.consumed > 0 then FedHalfway(p, connect, birth, feeding', l', cap)
            else FedSoFar(p, connect, birth, feeding', l', cap)
  {
    hide Lawful, Stable, Joined, Kin, Feed;
    LawfulAt(p.onData, l.session, l.rest, room);
    var r := p.onData(l.session, l.rest, room);
    var feeding' := FeedBoth(p, feeding, l.session, l.rest, room, cap);
    ShadowedNext(p, connect, birth, feeding, l, room, cap);
    if !feeding'.astray && Stable(p.onData, cap) {
      var whole := Feed(p.onData, feeding.joined, l.received, cap);
      FeedStep(p.onData, whole, Fed(feeding.shadow, l.rest, feeding.echo, Ok), cap);
    }
  }

  lemma ShadowedNext<S(!new)>(
    p: Protocol<S>, connect: bool, birth: S, feeding: Feeding<S>, l: Ledger<S>, room: nat, cap: nat)
    requires Shadowed(p, connect, birth, feeding, l, cap)
    requires l.rest != [] && p.onData(l.session, l.rest, room).status == Ok
    requires p.onData(l.session, l.rest, room).consumed <= |l.rest|
    ensures var r := p.onData(l.session, l.rest, room);
            Shadowed(p, connect, birth, FeedBoth(p, feeding, l.session, l.rest, room, cap),
                     Ledger(l.trace + [Data], l.received, r.session, l.rest[r.consumed..], l.written + r.output), cap)
  {
    hide Lawful, Joined, Kin;
    var r := p.onData(l.session, l.rest, room);
    var feeding' := FeedBoth(p, feeding, l.session, l.rest, room, cap);
    if !feeding'.tight {
      KinNext(p, l.session, feeding, l.rest, room, cap);
    }
    Regroup(feeding.hello, feeding.echo, r.output);
    assert Beat in l.trace ==> Beat in l.trace + [Data];
  }

  lemma KinNext<S(!new)>(
    p: Protocol<S>, session: S, feeding: Feeding<S>, input: seq<byte>, room: nat, cap: nat)
    requires Kin(p, session, feeding, cap) && p.onData(session, input, room) == p.onData(session, input, cap)
    ensures Kin(p, p.onData(session, input, room).session, FeedBoth(p, feeding, session, input, room, cap), cap)
  {
  }

  /** Nothing is left to feed. */
  lemma FedAll<S(!new)>(
    p: Protocol<S>, connect: bool, birth: S, feeding: Feeding<S>, l: Ledger<S>, cap: nat)
    requires FedHalfway(p, connect, birth, feeding, l, cap) && l.rest == []
    ensures FedSoFar(p, connect, birth, feeding, l, cap)
  {
    hide Lawful, Stable, Joined, Kin;
    assert feeding.echo + [] == feeding.echo;
  }

  /** A heartbeat does not reach the shadow. */
  lemma FedBeaten<S(!new)>(
    p: Protocol<S>, connect: bool, birth: S, feeding: Feeding<S>, l: Ledger<S>, room: nat, cap: nat)
    requires FedSoFar(p, connect, birth, feeding, l, cap)
    ensures var r := p.heartbeat(l.session, [], room);
            FedSoFar(p, connect, birth, feeding,
                     l.(trace := l.trace + [Beat], session := r.session, written := l.written + r.output), cap)
  {
    hide Lawful, Stable, Joined, Feed;
    assert Beat in l.trace + [Beat];
  }
}
