/** What holds of one connection after any run of calls, said one property at a time. */
module ConnectionRuns {
  import opened Protocols
  import opened CallOrder
  import opened Feedings
  import opened Connections

  /** Any run: the connection is attached, and then anything is asked of it in any order. */
  method Drive<S(!new)>(c: Connection<S>, requests: seq<Request>)
    requires c.Resting() && !c.attached && c.state == Uninitialized
    modifies c
    ensures c.Resting() && c.state != Uninitialized
    ensures SocketsBalance(c) && BytesBalance(c) && CallsOrdered(c) && NeverStalls(c) && StateTellsSocket(c)
    ensures StateTellsFailure(c) && InputIsFed(c)
    ensures c.dials <= old(c.dials) + 1 + |requests| && c.log == old(c.log) + [Attaching] + requests
  {
    hide Connection.Base, Connection.Placed, Connection.Armed, Quiet;
    c.Attach();
    for i := 0 to |requests|
      invariant c.Resting() && c.attached && c.state != Uninitialized && c.dials <= old(c.dials) + 1 + i
      invariant c.log == old(c.log) + [Attaching] + requests[..i]
    {
      hide Connection.Resting;
      assert requests[..i + 1] == requests[..i] + [requests[i]];
      Perform(c, requests[i]);
    }
    assert requests[..|requests|] == requests;
    RestingBalancesSockets(c);
    RestingBalancesBytes(c);
    RestingOrdersCalls(c);
    RestingNeverStalls(c);
    RestingStateTellsSocket(c);
    RestingStateTellsFailure(c);
    RestingInputIsFed(c);
  }

  method Perform<S(!new)>(c: Connection<S>, request: Request)
    requires c.Resting() && c.attached && c.state != Uninitialized
    modifies c
    ensures c.Resting() && c.attached && c.state != Uninitialized
    ensures c.dials <= old(c.dials) + 1 && c.log == old(c.log) + [request]
  {
    hide Connection.Resting, Connection.Moved, Connection.Stuck, Connection.Drained, Quiet, OnlyTeardown;
    match request
    case Attaching => c.Attach();
    case Happened(ev) => c.HandleEvent(ev);
    case Stopping => c.Stop();
    case Restarting => c.Restart();
    case Beating => c.Heartbeat();
  }

  /** Every socket ever opened has been closed exactly once, except the one in use. */
  ghost predicate SocketsBalance<S(!new)>(c: Connection<S>)
    reads c
  {
    && c.kernel.open == (if c.fd == -1 then {} else {c.fd})
    && c.kernel.created == c.kernel.released + (if c.fd == -1 then 0 else 1)
    && (c.Done() ==> c.fd == -1)
  }

  lemma RestingBalancesSockets<S(!new)>(c: Connection<S>)
    requires c.Resting()
    ensures SocketsBalance(c)
  {
    hide LawfulProtocol, BuffersSound, FarewellLast, CallsInOrder, StageOf;
  }

  /** In both directions no byte is lost, repeated or reordered. */
  ghost predicate BytesBalance<S(!new)>(c: Connection<S>)
    reads c
  {
    && c.sent + c.tx.contents == c.written
    && c.eaten <= c.received
    && (Talking(c.state) ==> c.received == c.eaten + c.rx.contents)
  }

  lemma RestingBalancesBytes<S(!new)>(c: Connection<S>)
    requires c.Resting()
    ensures BytesBalance(c)
  {
    hide LawfulProtocol, BuffersSound, FarewellLast, CallsInOrder, OwnsSocket, StageOf;
  }

  /** The callbacks of the current dial have the documented shape. */
  ghost predicate CallsOrdered<S(!new)>(c: Connection<S>)
    reads c
  {
    exists i, j, k :: InOrder(c.has.connect, c.trace, i, j, k)
  }

  lemma RestingOrdersCalls<S(!new)>(c: Connection<S>)
    requires c.Resting()
    ensures CallsOrdered(c)
  {
    hide LawfulProtocol, BuffersSound, FarewellLast, OwnsSocket, StageOf;
    AcceptedIsInOrder(c.has.connect, c.trace);
  }

  /** An open socket is watched for what the connection can use next, and on the plain transport for
      nothing else. */
  ghost predicate NeverStalls<S(!new)>(c: Connection<S>)
    reads c
  {
    c.fd != -1 ==>
      && c.fd in c.kernel.interest
      && var w := c.kernel.interest[c.fd];
         && (w.read || w.write)
         && (c.state == InProgress ==> w.write)
         && (Talking(c.state) ==> w.read && (c.tx.contents != [] ==> w.write))
         && (c.state == DrainProtocol ==> w.write && c.tx.contents != [])
         && (c.state == InProgress || (c.state == DrainProtocol && c.has.plain) ==> !w.read)
         && (Talking(c.state) && c.has.plain ==> (w.write <==> c.tx.contents != []))
  }

  lemma RestingNeverStalls<S(!new)>(c: Connection<S>)
    requires c.Resting()
    ensures NeverStalls(c)
  {
    hide Connection.Base, Connection.Placed;
  }

  /** The state tells whether there is a socket. */
  ghost predicate StateTellsSocket<S(!new)>(c: Connection<S>)
    reads c
  {
    !c.has.closing ==> (c.fd == -1 <==> c.state in {Uninitialized, Closed, InError})
  }

  lemma RestingStateTellsSocket<S(!new)>(c: Connection<S>)
    requires c.Resting()
    ensures StateTellsSocket(c)
  {
    hide Connection.Base, Connection.Placed, Connection.Armed;
  }

  /** On the plain transport a failed connection is in the error state, unless its first failure was
      a write after a close verdict, or a read or a full read buffer while it drained: then it is
      closed as if nothing had failed. */
  ghost predicate StateTellsFailure<S(!new)>(c: Connection<S>)
    reads c
  {
    c.has.plain && c.fault ==>
      c.cause.Some? && c.state == if Overwritten(c.cause.value) then Closed else InError
  }

  lemma RestingStateTellsFailure<S(!new)>(c: Connection<S>)
    requires c.Resting()
    ensures StateTellsFailure(c)
  {
    hide LawfulProtocol, BuffersSound, FarewellLast, CallsInOrder, OwnsSocket, StageOf, FedSoFar;
  }

  /** In normal operation and with room enough, a protocol for which it does not matter where its
      input is cut stands where feeding it everything received at once would put it: exactly there
      without heartbeats, and else but for differences that do not matter in reading. */
  ghost predicate InputIsFed<S(!new)>(c: Connection<S>)
    reads c
  {
    c.state == InProtocol && !c.feeding.tight && Lawful(c.p.onData) && Stable(c.p.onData, TX_CAP) ==>
      var fed := Feed(c.p.onData, c.feeding.joined, c.received, TX_CAP);
      && (Beat !in c.trace ==>
            c.feeding.hello <= c.written
            && fed == Fed(c.session, c.rx.contents, c.written[|c.feeding.hello|..], Ok))
      && (forall alike: (S, S) -> bool :: Indifferent(c.p, alike, TX_CAP) ==>
            fed.rest == c.rx.contents && fed.status == Ok && alike(c.session, fed.session))
  }

  lemma RestingInputIsFed<S(!new)>(c: Connection<S>)
    requires c.Resting()
    ensures InputIsFed(c)
  {
    hide Connection.Base, Connection.Placed, Connection.Armed, Indifferent, Feed;
  }

  /** A connection that is stopped and restarted before it is attached: if the restart gave it a
      socket, attaching it then loses that socket, even if the new dial fails. */
  method AttachTooLate<S(!new)>(p: Protocol<S>, has: Features) returns (c: Connection<S>, lost: int)
    requires LawfulProtocol(p) && (has.plain ==> !has.handshake && !has.closing)
    ensures c.attached && c.dials == 2
    ensures lost != -1 ==> lost in c.kernel.open && lost != c.fd
    ensures lost == -1 ==> c.Resting()
  {
    hide Connection.Resting;
    c := new Connection<S>(p, has);
    c.Stop();
    c.Restart();
    lost := c.fd;
    if lost == -1 {
      c.Attach();
    } else {
      var _ := c.DialOverSocket(false, []);
    }
  }
}
