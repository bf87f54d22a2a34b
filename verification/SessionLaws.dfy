/** What the WebSocket session guarantees over whole byte streams. */
module SessionLaws {
  import opened Bytes
  import opened Frames
  import opened ControlFrames
  import opened Options
  import opened Protocols
  import opened Handshakes
  import opened HandshakeLaws
  import opened Sessions

  // ----- Every callback stays inside its views

  lemma HandledFits<C(!new)>(cfg: Config<C>, s: Session<C>, op: byte, payload: seq<byte>, room: nat)
    requires LawfulConfig(cfg)
    ensures |HandleFrame(cfg, s, op, payload, room).output| <= room
  {
  }

  lemma OnDataFits<C(!new)>(cfg: Config<C>, s: Session<C>, input: seq<byte>, room: nat)
    requires LawfulConfig(cfg)
    ensures OnData(cfg, s, input, room).consumed <= |input|
    ensures |OnData(cfg, s, input, room).output| <= room
  {
    hide HandleFrame, ReadHandshake, Parse;
    if s.phase == HandshakeSent {
      if FindHead(input, 0).Some? {
        ReadStable(s.key, input, []);
      } else {
        IncompleteHead(s.key, input);
      }
    } else if Parse(input).Parsed? {
      ParsedBounds(input);
      var f := Parse(input).frame;
      HandledFits(cfg, s, f.op, f.payload, room);
      var t := s.(msg := s.msg + f.payload);
      HandledFits(cfg, t, t.opcode, t.msg, room);
    }
  }

  lemma IncompleteHead(key: seq<byte>, s: seq<byte>)
    requires FindHead(s, 0).None?
    ensures ReadHandshake(key, s) == (0, Ok)
  {
  }

  lemma LawfulWebSocket<C(!new)>(cfg: Config<C>)
    requires LawfulConfig(cfg)
    ensures LawfulProtocol(WebSocket(cfg))
  {
    hide OnData, ControlFrame, CloseFrame;
    var p := WebSocket(cfg);
    forall s, input, room
      ensures p.onData(s, input, room).consumed <= |input| && |p.onData(s, input, room).output| <= room
    {
      OnDataFits(cfg, s, input, room);
    }
    assert Lawful(p.onData);
    assert Lawful(p.onConnect);
    assert Lawful(p.onShutdown);
    assert Lawful(p.heartbeat);
  }

  // ----- Independence from chunking

  lemma OnDataStable<C(!new)>(cfg: Config<C>, s: Session<C>, input: seq<byte>, more: seq<byte>, room: nat)
    ensures var r := OnData(cfg, s, input, room);
            r == Reply(s, 0, [], Ok)
            || ((r.consumed > 0 || r.status != Ok) && OnData(cfg, s, input + more, room) == r)
  {
    hide TakeFrame, ReadHandshake, Parse;
    if s.phase == HandshakeSent {
      if FindHead(input, 0).Some? {
        ReadStable(s.key, input, more);
      } else {
        IncompleteHead(s.key, input);
      }
    } else if s.phase == Listening && Parse(input) != NeedMore {
      ParseStable(input, more);
      if Parse(input).Parsed? {
        ParsedBounds(input);
      }
    }
  }

  lemma StableWebSocket<C(!new)>(cfg: Config<C>, room: nat)
    ensures Stable(WebSocket(cfg).onData, room)
  {
    hide OnData;
    var f := WebSocket(cfg).onData;
    forall s, input
      ensures Waits(f, s, input, room) || Acts(f, s, input, room)
    {
      if !Waits(f, s, input, room) {
        OnDataStable(cfg, s, input, [], room);
        forall more
          ensures f(s, input + more, room) == f(s, input, room)
        {
          OnDataStable(cfg, s, input, more, room);
        }
      }
    }
  }

  /** Chunking independence: from any session, upgrade response included, every way of cutting a
      byte stream gives the same codec calls, output, verdict, session and unread bytes. */
  lemma ChunkingDoesNotMatter<C(!new)>(
    cfg: Config<C>, s: Session<C>, chunks: seq<seq<byte>>, chunks': seq<seq<byte>>, room: nat)
    requires LawfulConfig(cfg) && Concat(chunks) == Concat(chunks')
    ensures Lawful(WebSocket(cfg).onData)
    ensures FeedChunks(WebSocket(cfg).onData, s, chunks, room)
         == FeedChunks(WebSocket(cfg).onData, s, chunks', room)
  {
    hide Stable, Lawful, FeedChunks;
    LawfulWebSocket(cfg);
    StableWebSocket(cfg, room);
    AnyChunking(WebSocket(cfg).onData, s, chunks, room);
    AnyChunking(WebSocket(cfg).onData, s, chunks', room);
  }

  // ----- Room does not matter while there is enough of it

  /** `want` bounds what the codec needs to answer a message. */
  ghost predicate SatedCodec<C(!new)>(cfg: Config<C>, want: (C, Kind, seq<byte>) -> nat) {
    forall c, kind, payload, r, r' :: want(c, kind, payload) <= r <= r' ==>
      cfg.codec.onMessage(c, kind, payload, r) == cfg.codec.onMessage(c, kind, payload, r')
  }

  function HandleNeed<C>(want: (C, Kind, seq<byte>) -> nat, s: Session<C>, op: byte, payload: seq<byte>): nat {
    if op == TEXT then want(s.codec, Text, payload)
    else if op == BINARY then want(s.codec, Binary, payload)
    else if op == CLOSE then 8
    else 6 + |payload|
  }

  function Need<C>(want: (C, Kind, seq<byte>) -> nat, s: Session<C>, input: seq<byte>): nat {
    if s.phase == Listening && Parse(input).Parsed? then
      var f := Parse(input).frame;
      if f.fin && f.op != CONT then HandleNeed(want, s, f.op, f.payload)
      else HandleNeed(want, s, s.opcode, s.msg + f.payload)
    else 0
  }

  lemma SatedWebSocket<C(!new)>(cfg: Config<C>, want: (C, Kind, seq<byte>) -> nat)
    requires SatedCodec(cfg, want)
    ensures Sated(WebSocket(cfg).onData, (s, input) => Need(want, s, input))
  {
    hide Parse, ReadHandshake, ControlFrame;
    forall s: Session<C>, input, r: nat, r': nat | Need(want, s, input) <= r <= r'
      ensures OnData(cfg, s, input, r) == OnData(cfg, s, input, r')
    {
      if s.phase == Listening && Parse(input).Parsed? {
        var f := Parse(input).frame;
        if f.fin && f.op != CONT {
          SatedHandle(cfg, want, s, f.op, f.payload, r, r');
        } else {
          var t := s.(msg := s.msg + f.payload);
          SatedHandle(cfg, want, t, t.opcode, t.msg, r, r');
        }
      }
    }
  }

  lemma SatedHandle<C(!new)>(
    cfg: Config<C>, want: (C, Kind, seq<byte>) -> nat, s: Session<C>, op: byte, payload: seq<byte>, r: nat, r': nat)
    requires SatedCodec(cfg, want) && HandleNeed(want, s, op, payload) <= r <= r'
    ensures HandleFrame(cfg, s, op, payload, r) == HandleFrame(cfg, s, op, payload, r')
  {
  }

  // ----- Frame by frame

  /** Taking frames until one ends the session's run with a verdict. */
  function TakeFrames<C>(cfg: Config<C>, s: Session<C>, fs: seq<Frame>, room: nat): Handled<C>
    decreases |fs|
  {
    if |fs| == 0 then Handled(s, [], Ok)
    else
      var h := TakeFrame(cfg, s, fs[0], room);
      if h.status != Ok then h
      else
        var t := TakeFrames(cfg, h.session, fs[1..], room);
        t.(output := h.output + t.output)
  }

  lemma TakeKeepsPhase<C>(cfg: Config<C>, s: Session<C>, f: Frame, room: nat)
    ensures TakeFrame(cfg, s, f, room).session.phase == s.phase
  {
  }

  /** No message in progress ever outgrows its buffer, whatever arrives. */
  lemma MessageBounded<C>(cfg: Config<C>, s: Session<C>, input: seq<byte>, room: nat)
    requires |s.msg| <= MSG_CAP
    ensures |OnData(cfg, s, input, room).session.msg| <= MSG_CAP
  {
    hide Parse, ReadHandshake, ControlFrame;
  }

  /** Feeding the bytes of frames is taking the frames, in order, up to the first verdict. */
  lemma {:induction false} FeedFrames<C(!new)>(cfg: Config<C>, s: Session<C>, fs: seq<Frame>, room: nat)
    requires LawfulConfig(cfg) && AllSendable(fs) && s.phase == Listening
    ensures Lawful(WebSocket(cfg).onData)
    ensures var h := TakeFrames(cfg, s, fs, room);
            var fed := Feed(WebSocket(cfg).onData, s, EncodeAll(fs), room);
            fed.session == h.session && fed.output == h.output && fed.status == h.status
            && (h.status == Ok ==> fed.rest == [])
    decreases |fs|
  {
    hide TakeFrame, Parse, Encode;
    LawfulWebSocket(cfg);
    if |fs| > 0 {
      assert Sendable(fs[0]);
      var f := WebSocket(cfg).onData;
      var h := TakeFrame(cfg, s, fs[0], room);
      var rest := EncodeAll(fs[1..]);
      var input := Encode(fs[0]) + rest;
      ParseEncode(fs[0], rest);
      ParsedBounds(input);
      assert f(s, input, room) == Reply(h.session, |Encode(fs[0])|, h.output, h.status);
      assert input[|Encode(fs[0])|..] == rest;
      TakeKeepsPhase(cfg, s, fs[0], room);
      FeedFrames(cfg, h.session, fs[1..], room);
    }
  }

  // ----- Reassembly

  /** What may stand between the first and the last fragment of a message. */
  datatype Item = Fragment(payload: seq<byte>) | Ping(payload: seq<byte>) | Pong(payload: seq<byte>)

  function ItemFrame(item: Item): Frame {
    match item
    case Fragment(p) => Frame(false, CONT, p)
    case Ping(p) => Frame(true, PING, p)
    case Pong(p) => Frame(true, PONG, p)
  }

  function ItemFrames(items: seq<Item>): seq<Frame> {
    if |items| == 0 then [] else [ItemFrame(items[0])] + ItemFrames(items[1..])
  }

  /** The payload the fragments carry. */
  function Body(items: seq<Item>): seq<byte> {
    if |items| == 0 then []
    else (if items[0].Fragment? then items[0].payload else []) + Body(items[1..])
  }

  function Pings(items: seq<Item>): nat {
    if |items| == 0 then 0 else (if items[0].Ping? then 1 else 0) + Pings(items[1..])
  }

  /** One pong for each ping, in order, each under its own four random bytes. */
  function Pongs<C>(cfg: Config<C>, s: Session<C>, items: seq<Item>): seq<byte>
    requires Answerable(items)
    decreases |items|
  {
    if |items| == 0 then []
    else if items[0].Ping? then
      ControlFrame(PONG, Draw(cfg, s, 4), items[0].payload) + Pongs(cfg, Drew(s, 4), items[1..])
    else Pongs(cfg, s, items[1..])
  }

  /** Pings short enough to be answered. */
  predicate Answerable(items: seq<Item>) {
    forall i :: 0 <= i < |items| && items[i].Ping? ==> |items[i].payload| <= 125
  }

  /** There is room for each answer. */
  predicate Fits(items: seq<Item>, room: nat) {
    forall i :: 0 <= i < |items| && items[i].Ping? ==> 6 + |items[i].payload| <= room
  }

  ghost predicate AllItemsSendable(items: seq<Item>) {
    forall i :: 0 <= i < |items| ==> |items[i].payload| < U64_MOD / 2
  }

  /** The frames of a message in at least two fragments. */
  function MessageFrames(op: byte, first: seq<byte>, items: seq<Item>, last: seq<byte>): seq<Frame> {
    [Frame(false, op, first)] + ItemFrames(items) + [Frame(true, CONT, last)]
  }

  /** Collecting the middle of a message. */
  lemma {:induction false} TakeItems<C>(cfg: Config<C>, s: Session<C>, items: seq<Item>, last: Frame, room: nat)
    requires Answerable(items) && Fits(items, room)
    requires |s.msg| + |Body(items)| <= MSG_CAP
    ensures var s' := s.(msg := s.msg + Body(items), draws := s.draws + 4 * Pings(items));
            var h := TakeFrame(cfg, s', last, room);
            TakeFrames(cfg, s, ItemFrames(items) + [last], room)
            == h.(output := Pongs(cfg, s, items) + h.output)
    decreases |items|
  {
    hide TakeFrame, ControlFrame, Draw;
    if |items| == 0 {
      assert ItemFrames(items) + [last] == [last];
      assert s.(msg := s.msg + [], draws := s.draws + 0) == s;
      var h := TakeFrame(cfg, s, last, room);
      assert TakeFrames(cfg, h.session, [last][1..], room) == Handled(h.session, [], Ok);
      assert h.output + [] == h.output == [] + h.output;
    } else {
      var fs := ItemFrames(items) + [last];
      assert fs[1..] == ItemFrames(items[1..]) + [last];
      var h := TakeFrame(cfg, s, fs[0], room);
      TakeItem(cfg, s, items[0], room);
      TakeItems(cfg, h.session, items[1..], last, room);
      ItemThenRest(cfg, s, items, room);
      var s' := s.(msg := s.msg + Body(items), draws := s.draws + 4 * Pings(items));
      Regroup(h.output, Pongs(cfg, h.session, items[1..]), TakeFrame(cfg, s', last, room).output);
    }
  }

  lemma TakeItem<C>(cfg: Config<C>, s: Session<C>, item: Item, room: nat)
    requires item.Ping? ==> |item.payload| <= 125 && 6 + |item.payload| <= room
    requires item.Fragment? ==> |s.msg| + |item.payload| <= MSG_CAP
    ensures TakeFrame(cfg, s, ItemFrame(item), room) == match item
      case Fragment(p) => Handled(s.(msg := s.msg + p), [], Ok)
      case Ping(p) => Handled(Drew(s, 4), ControlFrame(PONG, Draw(cfg, s, 4), p), Ok)
      case Pong(_) => Handled(s, [], Ok)
  {
    hide ControlFrame;
  }

  lemma ItemThenRest<C>(cfg: Config<C>, s: Session<C>, items: seq<Item>, room: nat)
    requires |items| > 0 && Answerable(items) && Fits(items, room)
    requires |s.msg| + |Body(items)| <= MSG_CAP
    ensures var h := TakeFrame(cfg, s, ItemFrame(items[0]), room);
            var t := h.session;
            t.(msg := t.msg + Body(items[1..]), draws := t.draws + 4 * Pings(items[1..]))
            == s.(msg := s.msg + Body(items), draws := s.draws + 4 * Pings(items))
            && Pongs(cfg, s, items) == h.output + Pongs(cfg, t, items[1..])
  {
    hide ControlFrame;
    TakeItem(cfg, s, items[0], room);
    match items[0]
    case Fragment(p) =>
      Regroup(s.msg, p, Body(items[1..]));
      SameDraws(cfg, s, s.(msg := s.msg + p), items[1..]);
    case _ =>
  }

  /** Pongs depend on a session only through its place in the random stream. */
  lemma {:induction false} SameDraws<C>(cfg: Config<C>, s: Session<C>, t: Session<C>, items: seq<Item>)
    requires Answerable(items) && s.dial == t.dial && s.draws == t.draws
    ensures Pongs(cfg, s, items) == Pongs(cfg, t, items)
    decreases |items|
  {
    if |items| > 0 {
      assert Draw(cfg, s, 4) == Draw(cfg, t, 4);
      if items[0].Ping? {
        SameDraws(cfg, Drew(s, 4), Drew(t, 4), items[1..]);
      } else {
        SameDraws(cfg, s, t, items[1..]);
      }
    }
  }

  /** What receiving a whole fragmented message must amount to. */
  function Received<C>(
    cfg: Config<C>, s: Session<C>, op: byte, first: seq<byte>, items: seq<Item>, last: seq<byte>, room: nat)
    : Fed<Session<C>>
    requires Answerable(items)
  {
    var whole := first + Body(items) + last;
    var a := cfg.codec.onMessage(s.codec, if op == TEXT then Text else Binary, whole, room);
    Fed(s.(msg := [], opcode := op, codec := a.codec, draws := s.draws + 4 * Pings(items)),
        [], Pongs(cfg, s, items) + a.output, a.status)
  }

  lemma MessageSendable(op: byte, first: seq<byte>, items: seq<Item>, last: seq<byte>)
    requires op == TEXT || op == BINARY
    requires AllItemsSendable(items) && |first + Body(items) + last| <= MSG_CAP
    ensures AllSendable(MessageFrames(op, first, items, last))
  {
    ItemsSendable(items);
    var fs := MessageFrames(op, first, items, last);
    forall i | 0 <= i < |fs|
      ensures Sendable(fs[i])
    {
      if 1 <= i < |fs| - 1 {
        assert fs[i] == ItemFrames(items)[i - 1];
      }
    }
  }

  lemma {:induction false} ItemsSendable(items: seq<Item>)
    requires AllItemsSendable(items)
    ensures AllSendable(ItemFrames(items))
  {
    if |items| > 0 {
      ItemsSendable(items[1..]);
    }
  }

  lemma TakeMessage<C>(
    cfg: Config<C>, s: Session<C>, op: byte, first: seq<byte>, items: seq<Item>, last: seq<byte>, room: nat)
    requires s.msg == [] && (op == TEXT || op == BINARY)
    requires Answerable(items) && Fits(items, room)
    requires |first + Body(items) + last| <= MSG_CAP
    ensures var h := TakeFrames(cfg, s, MessageFrames(op, first, items, last), room);
            Fed(h.session, [], h.output, h.status) == Received(cfg, s, op, first, items, last, room)
  {
    hide ControlFrame;
    var fs := MessageFrames(op, first, items, last);
    var end := Frame(true, CONT, last);
    assert fs[1..] == ItemFrames(items) + [end];
    var s1 := s.(msg := first, opcode := op);
    assert s.msg + first == first;
    assert TakeFrame(cfg, s, fs[0], room) == Handled(s1, [], Ok);
    TakeItems(cfg, s1, items, end, room);
    SameDraws(cfg, s, s1, items);
    var t := TakeFrames(cfg, s1, fs[1..], room);
    assert [] + t.output == t.output;
  }

  // ----- Whole conversations

  /** What a server sends: a message in one frame, a message in several, or a ping or pong on its
      own. */
  datatype Talk =
    | Whole(op: byte, payload: seq<byte>)
    | Split(op: byte, first: seq<byte>, items: seq<Item>, last: seq<byte>)
    | Aside(item: Item)

  predicate TalkAnswerable(t: Talk) {
    match t
    case Whole(_, _) => true
    case Split(_, _, items, _) => Answerable(items)
    case Aside(item) => !item.Fragment? && (item.Ping? ==> |item.payload| <= 125)
  }

  /** A text or binary message, of at most MSG_CAP bytes if it comes in several frames, or a ping or
      pong; and every ping can be answered in this room. */
  ghost predicate WellMade(t: Talk, room: nat) {
    TalkAnswerable(t) &&
    match t
    case Whole(op, payload) => (op == TEXT || op == BINARY) && |payload| < U64_MOD / 2
    case Split(op, first, items, last) =>
      (op == TEXT || op == BINARY) && Fits(items, room) && AllItemsSendable(items)
      && |first + Body(items) + last| <= MSG_CAP
    case Aside(item) => (item.Ping? ==> 6 + |item.payload| <= room) && |item.payload| < U64_MOD / 2
  }

  ghost predicate AllWellMade(ts: seq<Talk>, room: nat) {
    forall i :: 0 <= i < |ts| ==> WellMade(ts[i], room)
  }

  predicate AllTalkAnswerable(ts: seq<Talk>) {
    forall i :: 0 <= i < |ts| ==> TalkAnswerable(ts[i])
  }

  function TalkFrames(t: Talk): seq<Frame> {
    match t
    case Whole(op, payload) => [Frame(true, op, payload)]
    case Split(op, first, items, last) => MessageFrames(op, first, items, last)
    case Aside(item) => [ItemFrame(item)]
  }

  function AllTalkFrames(ts: seq<Talk>): seq<Frame> {
    if |ts| == 0 then [] else TalkFrames(ts[0]) + AllTalkFrames(ts[1..])
  }

  /** What hearing it must amount to: the codec gets each message whole and once, each ping is
      answered, and nothing else happens. */
  function Heard<C>(cfg: Config<C>, s: Session<C>, t: Talk, room: nat): Fed<Session<C>>
    requires TalkAnswerable(t)
  {
    match t
    case Whole(op, payload) =>
      var a := cfg.codec.onMessage(s.codec, if op == TEXT then Text else Binary, payload, room);
      Fed(s.(codec := a.codec), [], a.output, a.status)
    case Split(op, first, items, last) => Received(cfg, s, op, first, items, last, room)
    case Aside(item) =>
      if item.Ping? then Fed(Drew(s, 4), [], ControlFrame(PONG, Draw(cfg, s, 4), item.payload), Ok)
      else Fed(s, [], [], Ok)
  }

  /** One after the other, up to the first verdict. */
  function HeardAll<C>(cfg: Config<C>, s: Session<C>, ts: seq<Talk>, room: nat): Fed<Session<C>>
    requires AllTalkAnswerable(ts)
    decreases |ts|
  {
    if |ts| == 0 then Fed(s, [], [], Ok)
    else
      var h := Heard(cfg, s, ts[0], room);
      if h.status != Ok then h else Prepend(h.output, HeardAll(cfg, h.session, ts[1..], room))
  }

  lemma {:induction false} TakeConcat<C>(
    cfg: Config<C>, s: Session<C>, fs: seq<Frame>, gs: seq<Frame>, room: nat)
    ensures var h := TakeFrames(cfg, s, fs, room);
            TakeFrames(cfg, s, fs + gs, room)
            == if h.status != Ok then h
               else
                 var g := TakeFrames(cfg, h.session, gs, room);
                 g.(output := h.output + g.output)
    decreases |fs|
  {
    hide TakeFrame;
    if |fs| == 0 {
      assert fs + gs == gs;
      var g := TakeFrames(cfg, s, gs, room);
      assert [] + g.output == g.output;
    } else {
      var h := TakeFrame(cfg, s, fs[0], room);
      assert (fs + gs)[1..] == fs[1..] + gs;
      if h.status == Ok {
        TakeConcat(cfg, h.session, fs[1..], gs, room);
        var t := TakeFrames(cfg, h.session, fs[1..], room);
        Regroup(h.output, t.output, TakeFrames(cfg, t.session, gs, room).output);
      }
    }
  }

  lemma TakeTalk<C>(cfg: Config<C>, s: Session<C>, t: Talk, room: nat)
    requires s.msg == [] && WellMade(t, room)
    ensures var h := TakeFrames(cfg, s, TalkFrames(t), room);
            Fed(h.session, [], h.output, h.status) == Heard(cfg, s, t, room)
            && h.session.msg == [] && h.session.phase == s.phase
  {
    hide ControlFrame, Draw;
    match t
    case Whole(op, payload) =>
      TakeOne(cfg, s, Frame(true, op, payload), room);
    case Split(op, first, items, last) =>
      TakeMessage(cfg, s, op, first, items, last, room);
    case Aside(item) =>
      TakeOne(cfg, s, ItemFrame(item), room);
      TakeItem(cfg, s, item, room);
  }

  lemma TakeOne<C>(cfg: Config<C>, s: Session<C>, f: Frame, room: nat)
    ensures TakeFrames(cfg, s, [f], room) == TakeFrame(cfg, s, f, room)
  {
    hide TakeFrame;
    var h := TakeFrame(cfg, s, f, room);
    assert [f][1..] == [];
    assert TakeFrames(cfg, h.session, [], room) == Handled(h.session, [], Ok);
    assert h.output + [] == h.output;
  }

  lemma {:induction false} TakeTalks<C>(cfg: Config<C>, s: Session<C>, ts: seq<Talk>, room: nat)
    requires s.msg == [] && AllWellMade(ts, room)
    ensures AllTalkAnswerable(ts)
    ensures var h := TakeFrames(cfg, s, AllTalkFrames(ts), room);
            Fed(h.session, [], h.output, h.status) == HeardAll(cfg, s, ts, room)
    decreases |ts|
  {
    hide TakeFrames, TalkFrames, Heard, WellMade;
    TalksAnswerable(ts, room);
    if |ts| == 0 {
      TakeNone(cfg, s, room);
    } else {
      TakeTalk(cfg, s, ts[0], room);
      TakeConcat(cfg, s, TalkFrames(ts[0]), AllTalkFrames(ts[1..]), room);
      var h := TakeFrames(cfg, s, TalkFrames(ts[0]), room);
      TakeTalks(cfg, h.session, ts[1..], room);
    }
  }

  lemma TalksAnswerable(ts: seq<Talk>, room: nat)
    requires AllWellMade(ts, room)
    ensures AllTalkAnswerable(ts)
  {
  }

  lemma TakeNone<C>(cfg: Config<C>, s: Session<C>, room: nat)
    ensures TakeFrames(cfg, s, [], room) == Handled(s, [], Ok)
  {
  }

  lemma {:induction false} TalksSendable(ts: seq<Talk>, room: nat)
    requires AllWellMade(ts, room)
    ensures AllSendable(AllTalkFrames(ts))
  {
    if |ts| > 0 {
      TalksSendable(ts[1..], room);
      assert WellMade(ts[0], room);
      if ts[0].Split? {
        MessageSendable(ts[0].op, ts[0].first, ts[0].items, ts[0].last);
      }
    }
  }

  /** Reassembly: whatever messages a server sends, however each is cut into fragments, whatever
      pings and pongs stand between and inside them, and however the bytes arrive, the codec gets
      every message whole, once and in order under the first frame's opcode, every ping is answered
      in order, and the message buffer ends empty. */
  lemma Reassembly<C(!new)>(
    cfg: Config<C>, s: Session<C>, talks: seq<Talk>, chunks: seq<seq<byte>>, room: nat)
    requires LawfulConfig(cfg) && s.phase == Listening && s.msg == [] && AllWellMade(talks, room)
    ensures AllSendable(AllTalkFrames(talks)) && AllTalkAnswerable(talks)
    ensures Lawful(WebSocket(cfg).onData)
    ensures Concat(chunks) == EncodeAll(AllTalkFrames(talks)) ==>
              var fed := FeedChunks(WebSocket(cfg).onData, s, chunks, room);
              fed.(rest := []) == HeardAll(cfg, s, talks, room)
              && (fed.status == Ok ==> fed.rest == [])
  {
    hide TakeFrame, TakeFrames, Encode, EncodeAll, Feed, FeedChunks, Stable, Lawful, AllTalkFrames, HeardAll;
    TalksSendable(talks, room);
    TakeTalks(cfg, s, talks, room);
    LawfulWebSocket(cfg);
    StableWebSocket(cfg, room);
    AnyChunking(WebSocket(cfg).onData, s, chunks, room);
    FeedFrames(cfg, s, AllTalkFrames(talks), room);
  }

  // ----- Single callbacks

  /** The frame is masked with the next four random bytes. */
  ghost predicate FreshlyMasked<C(!new)>(cfg: Config<C>, s: Session<C>, frame: seq<byte>) {
    6 <= |frame|
    && frame[2..6] == [cfg.random(s.dial, s.draws), cfg.random(s.dial, s.draws + 1),
                       cfg.random(s.dial, s.draws + 2), cfg.random(s.dial, s.draws + 3)]
  }

  lemma Fresh<C(!new)>(cfg: Config<C>, s: Session<C>, op: byte, payload: seq<byte>)
    requires op < 16 && |payload| <= 125
    ensures FreshlyMasked(cfg, s, ControlFrame(op, Draw(cfg, s, 4), payload))
  {
    hide ControlFrame;
    ControlFrameHead(op, Draw(cfg, s, 4), payload);
  }

  /** A short ping is answered by one pong that unmasks to the same payload. */
  lemma PingAnswered<C(!new)>(cfg: Config<C>, s: Session<C>, payload: seq<byte>, room: nat)
    requires |payload| <= 125 && 6 + |payload| <= room
    ensures var h := TakeFrame(cfg, s, Frame(true, PING, payload), room);
            h.status == Ok && h.session == Drew(s, 4)
            && Unmask(h.output) == Some(Frame(true, PONG, payload)) && FreshlyMasked(cfg, s, h.output)
  {
    hide ControlFrame, FreshlyMasked;
    Fresh(cfg, s, PONG, payload);
    UnmaskControlFrame(PONG, Draw(cfg, s, 4), payload);
  }

  /** Shutting down either writes exactly one Close frame with the codec's code and says so, or
      finds no room for it and fails. */
  lemma ShutdownSaysClose<C(!new)>(cfg: Config<C>, s: Session<C>, input: seq<byte>, room: nat)
    ensures var r := OnShutdown(cfg, s, input, room);
            r.consumed == 0 && r.session.codec == cfg.codec.onShutdown(s.codec).0 &&
            if room < 8 then r.status == Error && r.output == []
            else
              r.status == Close && |r.output| == 8 && FreshlyMasked(cfg, s, r.output)
              && r.session.draws == s.draws + 4
              && Unmask(r.output)
                 == Some(Frame(true, CLOSE, ToBigEndian(cfg.codec.onShutdown(s.codec).1, 2)))
  {
    hide FreshlyMasked, ControlFrame, Unmask, ToBigEndian;
    Fresh(cfg, s, CLOSE, ToBigEndian(cfg.codec.onShutdown(s.codec).1, 2));
    UnmaskCloseFrame(Draw(cfg, s, 4), cfg.codec.onShutdown(s.codec).1);
  }

  /** A Close frame is answered, room permitting, by one Close frame with the same code, and always
      ends normal operation. */
  lemma CloseAnswered<C>(cfg: Config<C>, s: Session<C>, payload: seq<byte>, room: nat)
    ensures var h := TakeFrame(cfg, s, Frame(true, CLOSE, payload), room);
            h.status == Close && h.session == s
            && (room < 8 ==> h.output == [])
            && (room >= 8 ==>
                  Unmask(h.output) == Some(Frame(true, 8, if |payload| >= 2 then payload[..2] else [0x03, 0xE8])))
  {
    hide CloseReply, Unmask;
    CloseReplyEchoes(payload);
  }

  /** A ping that cannot be answered ends normal operation and writes nothing. */
  lemma PingRefused<C>(cfg: Config<C>, s: Session<C>, payload: seq<byte>, room: nat)
    ensures var h := TakeFrame(cfg, s, Frame(true, PING, payload), room);
            h.status == Close <==> 125 < |payload| || room < 6 + |payload|
    ensures var h := TakeFrame(cfg, s, Frame(true, PING, payload), room);
            h.status == Close ==> h == Handled(s, [], Close)
  {
    hide ControlFrame;
  }

  /** A heartbeat is one empty ping, or nothing when there is no room for it. */
  lemma HeartbeatPings<C(!new)>(cfg: Config<C>, s: Session<C>, input: seq<byte>, room: nat)
    ensures var r := Heartbeat(cfg, s, input, room);
            r.consumed == 0 && r.status == Ok
            && if room < 6 then r.session == s && r.output == []
               else
                 r.session == s.(draws := s.draws + 4) && FreshlyMasked(cfg, s, r.output)
                 && Unmask(r.output) == Some(Frame(true, PING, []))
  {
    hide ControlFrame, Unmask, FreshlyMasked;
    Fresh(cfg, s, PING, []);
    UnmaskControlFrame(PING, Draw(cfg, s, 4), []);
  }

  /** Once listening, a masked frame or one with a reserved bit is an error that consumes nothing,
      on the strength of its first two bytes. */
  lemma MalformedRefused<C>(cfg: Config<C>, s: Session<C>, input: seq<byte>, room: nat)
    requires s.phase == Listening && 2 <= |input| && (Rsv(input[0]) != 0 || Masked(input[1]))
    ensures OnData(cfg, s, input, room) == Reply(s, 0, [], Error)
  {
  }

  /** A fragment that would overflow the message is an error: nothing is written, and the codec and
      the message stay as they are. */
  lemma OverflowRefused<C>(cfg: Config<C>, s: Session<C>, f: Frame, room: nat)
    requires !f.fin || f.op == CONT
    ensures 0x10_0000 < |s.msg| + |f.payload| ==> TakeFrame(cfg, s, f, room) == Handled(s, [], Error)
    ensures |s.msg| + |f.payload| <= 0x10_0000 && !f.fin ==>
              var h := TakeFrame(cfg, s, f, room);
              h.status == Ok && h.output == [] && h.session.msg == s.msg + f.payload && h.session.codec == s.codec
  {
  }

  /** Frames of other kinds than data, Close and Ping are read and ignored. */
  lemma OthersIgnored<C>(cfg: Config<C>, s: Session<C>, op: byte, payload: seq<byte>, room: nat)
    requires op in {3, 4, 5, 6, 7, 10, 11, 12, 13, 14, 15}
    ensures TakeFrame(cfg, s, Frame(true, op, payload), room) == Handled(s, [], Ok)
  {
  }

  /** A session that has asked nothing yet takes no answer. */
  lemma NothingBeforeConnect<C>(cfg: Config<C>, dial: nat, input: seq<byte>, room: nat)
    ensures OnData(cfg, Create(cfg, dial), input, room) == Reply(Create(cfg, dial), 0, [], Error)
  {
  }

  /** On the wire: a short ping is answered by a pong, bytes 0x89 and 0x8A. */
  lemma PingOnTheWire<C(!new)>(cfg: Config<C>, s: Session<C>, payload: seq<byte>, rest: seq<byte>, room: nat)
    requires s.phase == Listening && |payload| <= 125 && 6 + |payload| <= room
    ensures var r := OnData(cfg, s, [0x89, |payload| as byte] + payload + rest, room);
            && r.consumed == 2 + |payload| && r.status == Ok && r.session == s.(draws := s.draws + 4)
            && |r.output| == 6 + |payload| && r.output[0] == 0x8A && FreshlyMasked(cfg, s, r.output)
            && Unmask(r.output) == Some(Frame(true, 10, payload))
  {
    hide Parse, ControlFrame, Unmask, FreshlyMasked;
    ParseShort(9, payload, rest);
    PingAnswered(cfg, s, payload, room);
    ControlFrameHead(PONG, Draw(cfg, s, 4), payload);
  }

  /** On the wire: a short message under 0x81 goes to the codec as text, under 0x82 as binary. */
  lemma MessageOnTheWire<C>(cfg: Config<C>, s: Session<C>, text: bool, payload: seq<byte>, rest: seq<byte>, room: nat)
    requires s.phase == Listening && |payload| <= 125
    ensures var r := OnData(cfg, s, [if text then 0x81 else 0x82, |payload| as byte] + payload + rest, room);
            var a := cfg.codec.onMessage(s.codec, if text then Text else Binary, payload, room);
            r == Reply(s.(codec := a.codec), 2 + |payload|, a.output, a.status)
  {
    hide Parse;
    ParseShort(if text then 1 else 2, payload, rest);
  }

  /** On the wire: a short text message in two fragments, bytes 0x01 and 0x80, goes to the codec with
      the second, as one. */
  lemma FragmentsOnTheWire<C(!new)>(
    cfg: Config<C>, s: Session<C>, a: seq<byte>, b: seq<byte>, rest: seq<byte>, room: nat)
    requires s.phase == Listening && s.msg == [] && |a| <= 125 && |b| <= 125
    ensures var r1 := OnData(cfg, s, [0x01, |a| as byte] + a + rest, room);
            && r1.consumed == 2 + |a| && r1.output == [] && r1.status == Ok && r1.session.codec == s.codec
            && var r2 := OnData(cfg, r1.session, [0x80, |b| as byte] + b + rest, room);
               var m := cfg.codec.onMessage(s.codec, Text, a + b, room);
               && r2.consumed == 2 + |b| && r2.output == m.output && r2.status == m.status
               && r2.session.codec == m.codec && r2.session.msg == []
  {
    hide Parse;
    ParseFirst(1, a, rest);
    ParseShort(0, b, rest);
    assert [] + a == a;
  }

  // ----- The upgrade key

  /** The key the scanner will look for fills its field and holds no space and no line break. */
  lemma AcceptKeyShape<C(!new)>(cfg: Config<C>, nonce: seq<byte>)
    requires LawfulConfig(cfg)
    ensures var key := AcceptKey(cfg.sha1, nonce);
            |key| == 28 && SP !in key && CR !in key && LF !in key
  {
    hide Base64.Encode, Base64.Decode, Ascii;
    var digest := cfg.sha1(RequestKey(nonce) + Ascii(GUID));
    Base64.RoundTrip(digest);
    Base64.Printable(digest);
    NoControl(Base64.Encode(digest));
  }

  lemma NoControl(t: string)
    requires forall i :: 0 <= i < |t| ==> '+' <= t[i] <= 'z'
    ensures SP !in Ascii(t) && CR !in Ascii(t) && LF !in Ascii(t)
  {
  }

  /** Different nonces ask different questions. */
  lemma KeysDiffer(nonce: seq<byte>, nonce': seq<byte>)
    requires RequestKey(nonce) == RequestKey(nonce')
    ensures nonce == nonce'
  {
    hide Base64.Encode, Ascii;
    Base64.Printable(nonce);
    Base64.Printable(nonce');
    SameText(Base64.Encode(nonce), Base64.Encode(nonce'));
    Base64.Injective(nonce, nonce');
  }

  lemma SameText(t: string, u: string)
    requires forall i :: 0 <= i < |t| ==> '+' <= t[i] <= 'z'
    requires forall i :: 0 <= i < |u| ==> '+' <= u[i] <= 'z'
    requires Ascii(t) == Ascii(u)
    ensures t == u
  {
    forall i | 0 <= i < |t|
      ensures t[i] == u[i]
    {
      assert Ascii(t)[i] == Ascii(u)[i];
    }
  }

  /** "258EAFA5-E914-47DA-95CA-C5AB0DC85B11" */
  const GUID_BYTES: seq<byte> := [
    50, 53, 56, 69, 65, 70, 65, 53, 45, 69, 57, 49, 52, 45, 52, 55, 68, 65,
    45, 57, 53, 67, 65, 45, 67, 53, 65, 66, 48, 68, 67, 56, 53, 66, 49, 49]

  lemma GuidBytes()
    ensures Ascii(GUID) == GUID_BYTES
  {
  }

  /** `question` encodes the nonce, and `answer` the digest of the question followed by the GUID. */
  ghost predicate Matching<C(!new)>(cfg: Config<C>, nonce: seq<byte>, question: string, answer: string) {
    && |question| == 24 && Base64.Decode(question) == nonce
    && |answer| == 28 && Base64.Decode(answer) == cfg.sha1(Ascii(question) + GUID_BYTES)
  }

  /** The key the session waits for answers the very question it sends (section 4.2.2 of RFC 6455). */
  lemma KeyAnswersRequest<C(!new)>(cfg: Config<C>, dial: nat, room: nat)
    requires LawfulConfig(cfg) && OnConnect(cfg, Create(cfg, dial), [], room).status == Ok
    ensures var r := OnConnect(cfg, Create(cfg, dial), [], room);
            var nonce := seq(16, i requires 0 <= i < 16 => cfg.random(dial, i));
            exists question, answer ::
              Matching(cfg, nonce, question, answer)
              && r.output == cfg.request(Ascii(question)) && r.session.key == Ascii(answer)
              && r.session.draws == 16
  {
    hide Base64.Encode, Base64.Decode, Ascii;
    var nonce := seq(16, i requires 0 <= i < 16 => cfg.random(dial, i));
    assert Draw(cfg, Create(cfg, dial), 16) == nonce;
    var question := Base64.Encode(nonce);
    var answer := Base64.Encode(cfg.sha1(Ascii(question) + Ascii(GUID)));
    Base64.RoundTrip(nonce);
    Base64.RoundTrip(cfg.sha1(Ascii(question) + Ascii(GUID)));
    GuidBytes();
    assert Matching(cfg, nonce, question, answer);
  }

  /** After a successful connect the session waits for exactly the answer to the question sent. */
  lemma ConnectAsks<C(!new)>(cfg: Config<C>, dial: nat, room: nat)
    requires LawfulConfig(cfg)
    ensures var r := OnConnect(cfg, Create(cfg, dial), [], room);
            var nonce := Draw(cfg, Create(cfg, dial), 16);
            if room < |cfg.request(RequestKey(nonce))| then r.status == Error && r.output == []
            else
              r.status == Ok && r.output == cfg.request(RequestKey(nonce))
              && r.session.phase == HandshakeSent && r.session.msg == []
              && r.session.key == AcceptKey(cfg.sha1, nonce)
              && |r.session.key| == 28 && SP !in r.session.key
              && CR !in r.session.key && LF !in r.session.key
  {
    hide RequestKey, AcceptKey;
    AcceptKeyShape(cfg, Draw(cfg, Create(cfg, dial), 16));
  }
}
