/** The WebSocket client session as functions on values: the meaning of its callbacks. */
module Sessions {
  import opened Bytes
  import Base64
  import opened Frames
  import opened ControlFrames
  import opened Protocols
  import opened Handshakes

  const MSG_CAP: nat := 0x10_0000
  const GUID: string := "258EAFA5-E914-47DA-95CA-C5AB0DC85B11"

  datatype Phase = Idle | HandshakeSent | Listening

  datatype Kind = Text | Binary

  datatype Answer<C> = Answer(codec: C, output: seq<byte>, status: Status)

  /** The user's message handlers: a missing handler is one that answers Ok and writes nothing. */
  datatype Codec<!C> = Codec(
    onMessage: (C, Kind, seq<byte>, nat) -> Answer<C>,
    onShutdown: C -> (C, Code))

  /** What lies outside: the codec, the random source of each dial, SHA-1, the text of the upgrade
      request for a given key, and what the uninitialised opcode field happens to hold. */
  datatype Config<!C> = Config(
    codec: Codec<C>,
    initial: C,
    random: (nat, nat) -> byte,
    sha1: seq<byte> -> seq<byte>,
    request: seq<byte> -> seq<byte>,
    stale: nat -> byte)

  ghost predicate LawfulConfig<C(!new)>(cfg: Config<C>) {
    && (forall c, kind, payload, room :: |cfg.codec.onMessage(c, kind, payload, room).output| <= room)
    && (forall bytes :: |cfg.sha1(bytes)| == 20)
  }

  /** `draws` counts the random bytes used so far; `msg` is the message being reassembled. */
  datatype Session<C> = Session(
    phase: Phase, key: seq<byte>, opcode: byte, msg: seq<byte>, codec: C, dial: nat, draws: nat)

  function Create<C>(cfg: Config<C>, dial: nat): Session<C> {
    Session(Idle, seq(28, _ => 0), cfg.stale(dial), [], cfg.initial, dial, 0)
  }

  /** The next `n` random bytes. */
  function Draw<C>(cfg: Config<C>, s: Session<C>, n: nat): (bytes: seq<byte>)
    ensures |bytes| == n
  {
    seq(n, i requires 0 <= i < n => cfg.random(s.dial, s.draws + i))
  }

  function Drew<C>(s: Session<C>, n: nat): Session<C> {
    s.(draws := s.draws + n)
  }

  function RequestKey(nonce: seq<byte>): seq<byte> {
    Ascii(Base64.Encode(nonce))
  }

  /** The value the server must send back (section 4.2.2 of RFC 6455). */
  function AcceptKey(sha1: seq<byte> -> seq<byte>, nonce: seq<byte>): seq<byte> {
    Ascii(Base64.Encode(sha1(RequestKey(nonce) + Ascii(GUID))))
  }

  function OnConnect<C>(cfg: Config<C>, s: Session<C>, input: seq<byte>, room: nat): Reply<Session<C>> {
    var nonce := Draw(cfg, s, 16);
    var request := cfg.request(RequestKey(nonce));
    if room < |request| then Reply(Drew(s, 16), 0, [], Error)
    else
      Reply(Drew(s, 16).(key := AcceptKey(cfg.sha1, nonce), phase := HandshakeSent), 0, request, Ok)
  }

  datatype Handled<C> = Handled(session: Session<C>, output: seq<byte>, status: Status)

  /** A complete message or control frame. */
  function HandleFrame<C>(cfg: Config<C>, s: Session<C>, op: byte, payload: seq<byte>, room: nat): Handled<C> {
    if op == TEXT || op == BINARY then
      var a := cfg.codec.onMessage(s.codec, if op == TEXT then Text else Binary, payload, room);
      Handled(s.(codec := a.codec), a.output, a.status)
    else if op == CLOSE then
      Handled(s, if room >= 8 then CloseReply(payload) else [], Close)
    else if op == PING then
      if 126 <= |payload| || room < 6 + |payload| then Handled(s, [], Close)
      else Handled(Drew(s, 4), ControlFrame(PONG, Draw(cfg, s, 4), payload), Ok)
    else Handled(s, [], Ok)
  }

  /** One parsed frame: fragments are collected, the rest is handled at once. */
  function TakeFrame<C>(cfg: Config<C>, s: Session<C>, f: Frame, room: nat): Handled<C> {
    if f.fin && f.op != CONT then HandleFrame(cfg, s, f.op, f.payload, room)
    else if MSG_CAP < |s.msg| + |f.payload| then Handled(s, [], Error)
    else
      var t := s.(msg := s.msg + f.payload);
      if f.fin then
        var h := HandleFrame(cfg, t, t.opcode, t.msg, room);
        h.(session := h.session.(msg := []))
      else Handled(t.(opcode := if f.op != CONT then f.op else t.opcode), [], Ok)
  }

  function Dispatch<C>(cfg: Config<C>, s: Session<C>, input: seq<byte>, room: nat): Reply<Session<C>> {
    match Parse(input)
    case Parsed(f, n) =>
      var h := TakeFrame(cfg, s, f, room);
      Reply(h.session, n, h.output, h.status)
    case NeedMore => Reply(s, 0, [], Ok)
    case _ => Reply(s, 0, [], Error)
  }

  function OnData<C>(cfg: Config<C>, s: Session<C>, input: seq<byte>, room: nat): Reply<Session<C>> {
    match s.phase
    case HandshakeSent =>
      var (n, status) := ReadHandshake(s.key, input);
      Reply(if n != 0 && status == Ok then s.(phase := Listening) else s, n, [], status)
    case Listening => Dispatch(cfg, s, input, room)
    case Idle => Reply(s, 0, [], Error)
  }

  function OnShutdown<C>(cfg: Config<C>, s: Session<C>, input: seq<byte>, room: nat): Reply<Session<C>> {
    var (c, code) := cfg.codec.onShutdown(s.codec);
    var s' := s.(codec := c);
    if room < 8 then Reply(s', 0, [], Error)
    else Reply(Drew(s', 4), 0, CloseFrame(Draw(cfg, s, 4), code), Close)
  }

  function Heartbeat<C>(cfg: Config<C>, s: Session<C>, input: seq<byte>, room: nat): Reply<Session<C>> {
    if room < 6 then Reply(s, 0, [], Ok)
    else Reply(Drew(s, 4), 0, ControlFrame(PING, Draw(cfg, s, 4), []), Ok)
  }

  /** The session as a protocol for a connection. */
  function WebSocket<C>(cfg: Config<C>): Protocol<Session<C>> {
    Protocol(
      n => Create(cfg, n),
      (s, input, room) => OnConnect(cfg, s, input, room),
      (s, input, room) => OnData(cfg, s, input, room),
      (s, input, room) => OnShutdown(cfg, s, input, room),
      (s, input, room) => Heartbeat(cfg, s, input, room))
  }
}
