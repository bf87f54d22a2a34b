/** The WebSocket protocol on a connection: whole runs from the upgrade to the last Close frame. */
module WebSocketRuns {
  import opened Bytes
  import opened Options
  import opened Frames
  import opened ControlFrames
  import opened Protocols
  import opened Handshakes
  import opened Responses
  import opened Acceptance
  import opened Sessions
  import opened SessionLaws
  import opened CallOrder
  import opened Feedings
  import opened Connections
  import opened Reactors

  // ----- From the upgrade response to messages

  /** An acceptable response turns a waiting session into a listening one and costs nothing else:
      the bytes after it are fed as if they had come alone. */
  lemma UpgradeThenListen<C(!new)>(
    cfg: Config<C>, s: Session<C>, front: seq<seq<byte>>, name: seq<byte>, spaces: seq<byte>,
    back: seq<seq<byte>>, sp: nat, rest: seq<byte>, room: nat)
    requires LawfulConfig(cfg) && s.phase == HandshakeSent
    requires Welcome(s.key, front, name, spaces, back, sp)
    ensures Lawful(WebSocket(cfg).onData)
    ensures var response := Response(front, name + spaces + s.key, back);
            Feed(WebSocket(cfg).onData, s, response + rest, room)
            == Feed(WebSocket(cfg).onData, s.(phase := Listening), rest, room)
  {
    hide Lines, ReadHandshake, Dispatch, FindHead, LawfulConfig;
    LawfulWebSocket(cfg);
    var f := WebSocket(cfg).onData;
    var response := Response(front, name + spaces + s.key, back);
    Accepted(s.key, front, name, spaces, back, rest, sp);
    var input := response + rest;
    assert input[|response|..] == rest;
    assert f(s, input, room) == Reply(s.(phase := Listening), |response|, [], Ok);
    var fed := Feed(f, s.(phase := Listening), rest, room);
    assert [] + fed.output == fed.output;
  }

  /** A session that waits for the response errs on one it cannot accept, without changing, and waits
      for the rest of one that is incomplete. */
  lemma UpgradeRefused<C(!new)>(cfg: Config<C>, s: Session<C>, input: seq<byte>, room: nat)
    requires s.phase == HandshakeSent
    ensures forall n: nat :: Head(input, n) && (forall sp: nat :: !Acceptable(s.key, input, n, sp)) ==>
              OnData(cfg, s, input, room) == Reply(s, n, [], Error)
    ensures (forall n: nat :: !Head(input, n)) ==> OnData(cfg, s, input, room) == Reply(s, 0, [], Ok)
  {
    hide ReadHandshake, Head, Acceptable;
    RefusedExactly(s.key, input);
  }

  /** From the first byte of the response on, however the stream is cut: upgrade, reassembly of any
      number of messages and answered pings together. */
  lemma UpgradeThenTalk<C(!new)>(
    cfg: Config<C>, s: Session<C>, front: seq<seq<byte>>, name: seq<byte>, spaces: seq<byte>,
    back: seq<seq<byte>>, sp: nat, talks: seq<Talk>, chunks: seq<seq<byte>>, room: nat)
    requires LawfulConfig(cfg) && s.phase == HandshakeSent && s.msg == []
    requires Welcome(s.key, front, name, spaces, back, sp) && AllWellMade(talks, room)
    ensures AllSendable(AllTalkFrames(talks)) && AllTalkAnswerable(talks)
    ensures Lawful(WebSocket(cfg).onData)
    ensures (Concat(chunks)
             == Response(front, name + spaces + s.key, back) + EncodeAll(AllTalkFrames(talks)))
            ==>
              var fed := FeedChunks(WebSocket(cfg).onData, s, chunks, room);
              fed.(rest := []) == HeardAll(cfg, s.(phase := Listening), talks, room)
              && (fed.status == Ok ==> fed.rest == [])
  {
    hide *;
    LawfulWebSocket(cfg);
    StableWebSocket(cfg, room);
    TalksSendable(talks, room);
    var f := WebSocket(cfg).onData;
    var bytes := EncodeAll(AllTalkFrames(talks));
    var t := s.(phase := Listening);
    LawfulParts(WebSocket(cfg));
    AnyChunking(f, s, chunks, room);
    UpgradeThenListen(cfg, s, front, name, spaces, back, sp, bytes, room);
    Reassembly(cfg, t, talks, [bytes], room);
    AnyChunking(f, t, [bytes], room);
    ConcatOne(bytes);
  }

  lemma LawfulParts<S(!new)>(p: Protocol<S>)
    requires LawfulProtocol(p)
    ensures Lawful(p.onData)
  {
  }

  lemma ConcatOne(bytes: seq<byte>)
    ensures Concat([bytes]) == bytes
  {
    assert Concat([bytes][1..]) == [];
  }

  // ----- The connection's loop is the feeding loop

  /** While no call is short of room, what a connection's consume loop does to a WebSocket session
      is what feeding it the same bytes does. */
  lemma ConsumeIsFeed<C(!new)>(
    cfg: Config<C>, want: (C, Kind, seq<byte>) -> nat, s0: Session<C>, input0: seq<byte>, written0: seq<byte>,
    rooms: seq<nat>, s: Session<C>, input: seq<byte>, written: seq<byte>)
    requires SatedCodec(cfg, want)
    requires Reached(WebSocket(cfg).onData, s0, input0, written0, rooms, s, input, written)
    requires Complete(WebSocket(cfg).onData, s0, input0, rooms)
    requires Unstarved(WebSocket(cfg).onData, (t, i) => Need(want, t, i), s0, input0, rooms, TX_CAP)
    ensures Feed(WebSocket(cfg).onData, s0, input0, TX_CAP) == Fed(s, input, written[|written0|..], Ok)
  {
    hide Complete, Unstarved, Sated;
    SatedWebSocket(cfg, want);
    RoomDoesNotMatter(WebSocket(cfg).onData, (t, i) => Need(want, t, i), s0, input0, rooms, TX_CAP);
  }

  /** A data callback that has the room it needs is not short of room. */
  lemma EnoughRoom<C(!new)>(
    cfg: Config<C>, want: (C, Kind, seq<byte>) -> nat, s: Session<C>, input: seq<byte>, room: nat)
    requires SatedCodec(cfg, want) && Need(want, s, input) <= room <= TX_CAP
    ensures WebSocket(cfg).onData(s, input, room) == WebSocket(cfg).onData(s, input, TX_CAP)
  {
    hide Need, SatedCodec;
    SatedWebSocket(cfg, want);
    var need := (t, i) => Need(want, t, i);
    assert need(s, input) <= room;
  }

  /** Sessions that differ at most in how many random bytes they have drawn. */
  ghost function SameButDraws<C(!new)>(): (Session<C>, Session<C>) -> bool {
    (s: Session<C>, t: Session<C>) => s.(draws := t.draws) == t
  }

  /** The random bytes go into masks only, and a heartbeat does nothing but draw some. */
  lemma DrawsDoNotMatter<C(!new)>(cfg: Config<C>, cap: nat)
    ensures Indifferent(WebSocket(cfg), SameButDraws(), cap)
  {
    hide OnData, ControlFrame;
    forall s: Session<C>, t: Session<C>, input | s.(draws := t.draws) == t
      ensures OnDataAlike(OnData(cfg, s, input, cap), OnData(cfg, t, input, cap))
    {
      DataAlike(cfg, s, t, input, cap);
    }
  }

  ghost predicate OnDataAlike<C(!new)>(a: Reply<Session<C>>, b: Reply<Session<C>>) {
    a.session.(draws := b.session.draws) == b.session && a.consumed == b.consumed && a.status == b.status
  }

  lemma DataAlike<C(!new)>(cfg: Config<C>, s: Session<C>, t: Session<C>, input: seq<byte>, room: nat)
    requires s.(draws := t.draws) == t
    ensures OnDataAlike(OnData(cfg, s, input, room), OnData(cfg, t, input, room))
  {
    hide Parse, ReadHandshake, TakeFrame;
    if Parse(input).Parsed? {
      TakeAlike(cfg, s, t, Parse(input).frame, room);
    }
  }

  lemma TakeAlike<C(!new)>(cfg: Config<C>, s: Session<C>, t: Session<C>, f: Frame, room: nat)
    requires s.(draws := t.draws) == t
    ensures var a, b := TakeFrame(cfg, s, f, room), TakeFrame(cfg, t, f, room);
            a.session.(draws := b.session.draws) == b.session && a.status == b.status
  {
    hide ControlFrame, CloseReply, Draw;
  }

  /** The whole connection is the feeding loop: in normal operation, after any run in which room was
      never short, feeding the session after connect every received byte at once, whatever pieces
      the transport delivered them in, leaves the same bytes unread and leads to the same session,
      but for the random bytes drawn by heartbeats; and without heartbeats to the very same session
      and output. */
  lemma ConnectionIsFeed<C(!new)>(cfg: Config<C>, c: Connection<Session<C>>)
    requires c.Resting() && c.state == InProtocol && c.p == WebSocket(cfg) && c.has.connect && !c.feeding.tight
    ensures Lawful(c.p.onData)
    ensures var asked := OnConnect(cfg, c.birth, [], TX_CAP);
            var fed := Feed(c.p.onData, asked.session, c.received, TX_CAP);
            && asked.status == Ok && asked.output <= c.written
            && fed.rest == c.rx.contents && fed.status == Ok && c.session.(draws := fed.session.draws) == fed.session
            && (Beat !in c.trace ==> c.session == fed.session && c.written == asked.output + fed.output)
  {
    hide Connection.Base, Connection.Placed, Connection.Armed, OnConnect, Stable, Indifferent, Feed;
    StableWebSocket(cfg, TX_CAP);
    DrawsDoNotMatter(cfg, TX_CAP);
  }

  lemma AskedUpgrade<C(!new)>(cfg: Config<C>, dial: nat)
    requires LawfulConfig(cfg) && OnConnect(cfg, Create(cfg, dial), [], TX_CAP).status == Ok
    ensures var t := OnConnect(cfg, Create(cfg, dial), [], TX_CAP).session;
            t.phase == HandshakeSent && t.msg == []
  {
    hide OnConnect, LawfulConfig;
    ConnectAsks(cfg, dial, TX_CAP);
  }

  /** End to end: a connection that has received the upgrade response and then any messages, in any
      fragments and with any pings in between, has given its codec each message once and in order,
      and has no byte left unread; and if no heartbeat came, it has answered every ping in order and
      written nothing else but the codec's answers. */
  lemma MessagesArrive<C(!new)>(
    cfg: Config<C>, c: Connection<Session<C>>, dial: nat, front: seq<seq<byte>>, name: seq<byte>,
    spaces: seq<byte>, back: seq<seq<byte>>, sp: nat, talks: seq<Talk>)
    requires LawfulConfig(cfg) && c.Resting() && c.state == InProtocol && !c.feeding.tight
    requires c.p == WebSocket(cfg) && c.has.connect && c.birth == Create(cfg, dial)
    requires AllWellMade(talks, TX_CAP)
    ensures AllSendable(AllTalkFrames(talks)) && AllTalkAnswerable(talks)
    ensures var asked := OnConnect(cfg, c.birth, [], TX_CAP);
            var key := asked.session.key;
            Welcome(key, front, name, spaces, back, sp)
            && c.received == Response(front, name + spaces + key, back) + EncodeAll(AllTalkFrames(talks))
            ==>
              var heard := HeardAll(cfg, asked.session.(phase := Listening), talks, TX_CAP);
              && heard.status == Ok && c.rx.contents == []
              && c.session.(draws := heard.session.draws) == heard.session
              && (Beat !in c.trace ==> c.session == heard.session && c.written == asked.output + heard.output)
  {
    hide *;
    TalksSendable(talks, TX_CAP);
    TalksAnswerable(talks, TX_CAP);
    ConnectionIsFeed(cfg, c);
    var asked := OnConnect(cfg, c.birth, [], TX_CAP);
    var key := asked.session.key;
    var bytes := EncodeAll(AllTalkFrames(talks));
    if Welcome(key, front, name, spaces, back, sp) && c.received == Response(front, name + spaces + key, back) + bytes {
      AskedUpgrade(cfg, dial);
      UpgradeThenTalk(cfg, asked.session, front, name, spaces, back, sp, talks, [c.received], TX_CAP);
      ConcatOne(c.received);
      StableWebSocket(cfg, TX_CAP);
      AnyChunking(c.p.onData, asked.session, [c.received], TX_CAP);
    }
  }

  // ----- The end of a run

  lemma PromptWebSocket<C(!new)>(cfg: Config<C>)
    ensures Prompt(WebSocket(cfg))
  {
  }

  /** The last eight bytes are a Close frame with the code this codec chooses. */
  ghost predicate SaidGoodbye<C>(cfg: Config<C>, sent: seq<byte>, codec: C) {
    8 <= |sent|
    && Unmask(sent[|sent| - 8..]) == Some(Frame(true, CLOSE, ToBigEndian(cfg.codec.onShutdown(codec).1, 2)))
  }

  /** Everything this connection wrote was sent, and the last eight bytes of that are a Close frame. */
  ghost predicate LeftInOrder<C(!new)>(cfg: Config<C>, c: Connection<Session<C>>)
    reads c
  {
    c.sent == c.written && SaidGoodbye(cfg, c.sent, c.farewell.asked.codec)
  }

  /** A connection that shut its protocol down and came to closing its transport before anything
      failed has sent everything, ending with a Close frame. It may be closing still, be closed, or
      have failed to close. */
  lemma DrainedMeansGoodbye<C(!new)>(cfg: Config<C>, c: Connection<Session<C>>)
    requires c.Resting() && c.p == WebSocket(cfg) && c.bade && c.PastDraining()
    ensures LeftInOrder(cfg, c)
  {
    hide LawfulProtocol, OwnsSocket, BuffersSound, CallsInOrder, OnShutdown, Unmask, FedSoFar;
    assert c.sent + [] == c.sent;
    var input, room :| c.p.onShutdown(c.farewell.asked, input, room).status == Close
                       && c.p.onShutdown(c.farewell.asked, input, room).output == c.farewell.bytes;
    assert c.p.onShutdown(c.farewell.asked, input, room) == OnShutdown(cfg, c.farewell.asked, input, room);
    ShutdownSaysClose(cfg, c.farewell.asked, input, room);
  }

  /** Stopping in normal operation, over any later events: the connection never listens again, and
      once it has left draining without a failure, whatever becomes of its transport, all it ever
      wrote was sent, and the last eight bytes of that are a Close frame. */
  method StopRun<C(!new)>(cfg: Config<C>, c: Connection<Session<C>>, events: seq<Event>)
    requires c.Resting() && c.state == InProtocol
    requires c.p == WebSocket(cfg) && c.has.shutdown
    modifies c
    ensures c.Resting() && Quiet(old(c.trace), c.trace)
    ensures c.state in {DrainProtocol, CloseTransport, Closed, InError}
    ensures c.has.plain ==> c.state != CloseTransport
    ensures c.state in {CloseTransport, Closed} && !c.fault ==> LeftInOrder(cfg, c)
    ensures c.fault && c.FailedClosing() ==> LeftInOrder(cfg, c)
    ensures |c.log| == |old(c.log)| + 1 + |events| && c.log[|old(c.log)|] == Stopping
    ensures forall k :: 0 <= k < |events| ==> c.log[|old(c.log)| + 1 + k] == Happened(events[k])
  {
    hide Connection.Resting, Connection.Base, Connection.Placed, Connection.Parted, Quiet, LeftInOrder;
    PromptWebSocket(cfg);
    c.Stop();
    for k := 0 to |events|
      invariant c.Resting() && Ending(c.state) && Quiet(old(c.trace), c.trace) && c.Parted()
      invariant c.state != Uninitialized
      invariant |c.log| == |old(c.log)| + 1 + k && c.log[|old(c.log)|] == Stopping
      invariant forall j :: 0 <= j < k ==> c.log[|old(c.log)| + 1 + j] == Happened(events[j])
    {
      ghost var before := c.trace;
      c.HandleEvent(events[k]);
      QuietTrans(old(c.trace), before, c.trace);
    }
    Narrow(c);
    if c.PastDraining() {
      DrainedMeansGoodbye(cfg, c);
    }
  }

  /** A farewell, or an end by a fault, leaves few places to rest. */
  lemma Narrow<S(!new)>(c: Connection<S>)
    requires c.Resting() && c.Parted()
    ensures c.state in {DrainProtocol, CloseTransport, Closed, InError}
    ensures c.has.plain ==> c.state != CloseTransport
    ensures c.PastDraining() ==> c.bade
  {
    hide LawfulProtocol, OwnsSocket, BuffersSound, CallsInOrder, FarewellLast, StageOf, FedSoFar;
  }

  /** After a kill, whenever it came and whatever happened since: a WebSocket connection that was
      in normal operation at the kill and has left draining without a failure has sent everything it
      wrote, and the last eight bytes of that are a Close frame. */
  lemma KillMeansGoodbye<C(!new)>(cfg: Config<C>, r: Reactor<Session<C>>, i: nat)
    requires r.Valid() && r.stopping && i < |r.connections|
    requires var c := r.connections[i];
             && c.p == WebSocket(cfg) && c.has.shutdown && i < |r.killed| && r.killed[i].state == InProtocol
             && c.PastDraining()
    ensures LeftInOrder(cfg, r.connections[i])
  {
    hide Connection.Resting, Quiet, LeftInOrder, Connection.Parted, Connection.PastDraining;
    var c := r.connections[i];
    PromptWebSocket(cfg);
    assert WoundDown(r.killed[i], r.MarkOf(c), r.Polite(c));
    Narrow(c);
    DrainedMeansGoodbye(cfg, c);
  }
}
