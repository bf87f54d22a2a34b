/** The WebSocket session as the object it is: fields and a message buffer updated in place. */
module SessionObjects {
  import opened Bytes
  import opened Buffers
  import opened Frames
  import opened ControlFrames
  import opened Protocols
  import opened Handshakes
  import opened Sessions

  class WebSocketSession<C(!new)> {
    const cfg: Config<C>
    const dial: nat
    const msgBuf: array<byte>
    var phase: Phase
    var key: seq<byte>
    var opcode: byte
    var msgLen: nat
    var codec: C
    var draws: nat

    ghost predicate Valid()
      reads this
    {
      LawfulConfig(cfg) && msgBuf.Length == MSG_CAP && msgLen <= MSG_CAP
    }

    ghost function View(): Session<C>
      requires Valid()
      reads this, msgBuf
    {
      Session(phase, key, opcode, msgBuf[..msgLen], codec, dial, draws)
    }

    constructor (cfg: Config<C>, dial: nat)
      requires LawfulConfig(cfg)
      ensures Valid() && fresh(msgBuf)
      ensures View() == Create(cfg, dial)
    {
      this.cfg, this.dial := cfg, dial;
      msgBuf := new byte[MSG_CAP](_ => 0);
      phase, key, opcode := Idle, seq(28, _ => 0), cfg.stale(dial);
      msgLen, codec, draws := 0, cfg.initial, 0;
    }

    /** The session may work on these buffers: they are sound and share no storage. */
    ghost predicate Separate(rx: Buffer, tx: Buffer)
      reads this, rx, tx
    {
      rx.Valid() && tx.Valid() && rx != tx && rx.data != tx.data && msgBuf !in {rx.data, tx.data}
    }

    method RandomBytes(n: nat) returns (bytes: seq<byte>)
      requires Valid()
      modifies this`draws
      ensures bytes == old(Draw(cfg, View(), n)) && draws == old(draws) + n
    {
      bytes := [];
      for i := 0 to n
        invariant |bytes| == i && draws == old(draws) + i
        invariant forall j :: 0 <= j < i ==> bytes[j] == cfg.random(dial, old(draws) + j)
      {
        bytes := bytes + [cfg.random(dial, draws)];
        draws := draws + 1;
      }
    }

    method OnConnect(tx: Buffer) returns (status: Status)
      requires Valid() && tx.Valid() && msgBuf != tx.data
      modifies this, tx, tx.data
      ensures Valid() && tx.Valid()
      ensures var r := Sessions.OnConnect(cfg, old(View()), [], old(tx.View()).Room());
              View() == r.session && status == r.status
              && |r.output| <= old(tx.View()).Room() && tx.View() == old(tx.View()).Wrote(r.output)
    {
      ghost var s := View();
      var nonce := RandomBytes(16);
      var request := cfg.request(RequestKey(nonce));
      if tx.Room() < |request| {
        return Error;
      }
      key := AcceptKey(cfg.sha1, nonce);
      phase := HandshakeSent;
      tx.Append(request);
      assert msgBuf[..msgLen] == s.msg;
      return Ok;
    }

    method OnData(rx: Buffer, tx: Buffer) returns (status: Status)
      requires Valid() && Separate(rx, tx)
      modifies this, msgBuf, rx, tx, tx.data
      ensures Valid() && Separate(rx, tx)
      ensures var r := Sessions.OnData(cfg, old(View()), old(rx.View()).contents, old(tx.View()).Room());
              View() == r.session && status == r.status
              && r.consumed <= |old(rx.View()).contents| && |r.output| <= old(tx.View()).Room()
              && rx.View() == old(rx.View()).Read(r.consumed)
              && tx.View() == old(tx.View()).Wrote(r.output)
    {
      hide Dispatch, ReadHandshake;
      match phase
      case HandshakeSent =>
        status := AwaitUpgrade(rx);
      case Listening =>
        status := DispatchFrame(rx, tx);
      case Idle =>
        status := Error;
    }

    /** Scans for the upgrade response; only a whole and good one starts the listening. */
    method AwaitUpgrade(rx: Buffer) returns (status: Status)
      requires Valid() && rx.Valid() && msgBuf != rx.data
      modifies this`phase, rx
      ensures Valid() && rx.Valid()
      ensures var (n, verdict) := ReadHandshake(key, old(rx.View()).contents);
              n <= |old(rx.View()).contents| && status == verdict && rx.View() == old(rx.View()).Read(n)
              && phase == if n != 0 && verdict == Ok then Listening else old(phase)
    {
      hide ReadHandshake;
      var input := rx.RBuf();
      var n;
      n, status := ScanHandshake(key, input);
      HandshakeBounds(key, input);
      rx.IncRpos(n);
      if n != 0 && status == Ok {
        phase := Listening;
      }
    }

    method DispatchFrame(rx: Buffer, tx: Buffer) returns (status: Status)
      requires Valid() && Separate(rx, tx)
      modifies this, msgBuf, rx, tx, tx.data
      ensures Valid() && Separate(rx, tx)
      ensures var r := Dispatch(cfg, old(View()), old(rx.View()).contents, old(tx.View()).Room());
              View() == r.session && status == r.status
              && r.consumed <= |old(rx.View()).contents| && |r.output| <= old(tx.View()).Room()
              && rx.View() == old(rx.View()).Read(r.consumed)
              && tx.View() == old(tx.View()).Wrote(r.output)
    {
      hide Parse;
      var input := rx.RBuf();
      var parsed := ParseFrame(input);
      match parsed
      case Parsed(frame, consumed) =>
        ParsedBounds(input);
        rx.IncRpos(consumed);
        status := Take(frame, tx);
      case NeedMore =>
        status := Ok;
      case _ =>
        status := Error;
    }

    /** The body of dispatch for one parsed frame. */
    method Take(frame: Frame, tx: Buffer) returns (status: Status)
      requires Valid() && tx.Valid() && msgBuf != tx.data
      modifies this, msgBuf, tx, tx.data
      ensures Valid() && tx.Valid()
      ensures var h := TakeFrame(cfg, old(View()), frame, old(tx.View()).Room());
              View() == h.session && status == h.status
              && |h.output| <= old(tx.View()).Room() && tx.View() == old(tx.View()).Wrote(h.output)
    {
      hide HandleFrame;
      if frame.fin && frame.op != CONT {
        status := Handle(frame.op, frame.payload, tx);
        return;
      }
      if MSG_CAP < msgLen + |frame.payload| {
        return Error;
      }
      Store(frame.payload);
      if frame.fin {
        status := Handle(opcode, msgBuf[..msgLen], tx);
        msgLen := 0;
      } else {
        if frame.op != CONT {
          opcode := frame.op;
        }
        status := Ok;
      }
    }

    /** Copies a fragment behind the part of the message already stored. */
    method Store(payload: seq<byte>)
      requires Valid() && msgLen + |payload| <= MSG_CAP
      modifies this`msgLen, msgBuf
      ensures Valid() && msgBuf[..msgLen] == old(msgBuf[..msgLen]) + payload
    {
      forall i | 0 <= i < |payload| {
        msgBuf[msgLen + i] := payload[i];
      }
      assert msgBuf[..msgLen] == old(msgBuf[..msgLen]);
      assert msgBuf[msgLen..msgLen + |payload|] == payload;
      msgLen := msgLen + |payload|;
      assert msgBuf[..msgLen] == old(msgBuf[..msgLen]) + payload;
    }

    method Handle(op: byte, payload: seq<byte>, tx: Buffer) returns (status: Status)
      requires Valid() && tx.Valid() && msgBuf != tx.data
      modifies this`codec, this`draws, tx, tx.data
      ensures Valid() && tx.Valid()
      ensures var h := HandleFrame(cfg, old(View()), op, payload, old(tx.View()).Room());
              View() == h.session && status == h.status
              && |h.output| <= old(tx.View()).Room() && tx.View() == old(tx.View()).Wrote(h.output)
    {
      status := Ok;
      if op == TEXT || op == BINARY {
        var answer := cfg.codec.onMessage(codec, if op == TEXT then Text else Binary, payload, tx.Room());
        codec := answer.codec;
        tx.Append(answer.output);
        status := answer.status;
      } else if op == CLOSE {
        WriteCloseReply(payload, tx);
        status := Close;
      } else if op == PING {
        if 126 <= |payload| || tx.Room() < 6 + |payload| {
          return Close;
        }
        WriteControl(PONG, payload, tx);
      }
    }

    /** A control frame under four fresh random bytes, straight into the writable view. */
    method WriteControl(op: byte, payload: seq<byte>, tx: Buffer)
      requires Valid() && tx.Valid() && msgBuf != tx.data
      requires op < 16 && |payload| <= 125 && 6 + |payload| <= tx.Room()
      modifies this`draws, tx, tx.data
      ensures Valid() && tx.Valid() && draws == old(draws) + 4
      ensures tx.View() == old(tx.View()).Wrote(ControlFrame(op, old(Draw(cfg, View(), 4)), payload))
    {
      hide ControlFrame;
      var mask := RandomBytes(4);
      ghost var before := tx.data[..tx.wpos];
      var n := WriteControlFrame(tx.data, tx.wpos, op, mask, payload);
      assert tx.data[tx.rpos..tx.wpos] == before[tx.rpos..];
      tx.IncWpos(n);
    }

    method WriteCloseReply(payload: seq<byte>, tx: Buffer)
      requires tx.Valid()
      modifies tx, tx.data
      ensures tx.Valid()
      ensures tx.View() == old(tx.View()).Wrote(if old(tx.Room()) >= 8 then CloseReply(payload) else [])
    {
      hide Xor, CloseReply, CloseCode;
      if tx.Room() >= 8 {
        var code := CloseCode(payload);
        var out, w := tx.data, tx.wpos;
        out[w], out[w + 1] := 0x88, 0x82;
        out[w + 2], out[w + 3], out[w + 4], out[w + 5] := 0xDE, 0xAD, 0xBE, 0xEF;
        out[w + 6] := Xor(0xDE, (code / 256) as byte);
        out[w + 7] := Xor(0xAD, (code % 256) as byte);
        ReplyBytes(payload);
        assert out[w..w + 8] == CloseReply(payload);
        assert out[tx.rpos..w] == old(tx.data[tx.rpos..tx.wpos]);
        tx.IncWpos(8);
      }
    }

    method OnShutdown(tx: Buffer) returns (status: Status)
      requires Valid() && tx.Valid() && msgBuf != tx.data
      modifies this, tx, tx.data
      ensures Valid() && tx.Valid()
      ensures var r := Sessions.OnShutdown(cfg, old(View()), [], old(tx.View()).Room());
              View() == r.session && status == r.status
              && |r.output| <= old(tx.View()).Room() && tx.View() == old(tx.View()).Wrote(r.output)
    {
      hide ControlFrame;
      ghost var s := View();
      var (c, code) := cfg.codec.onShutdown(codec);
      codec := c;
      if tx.Room() < 8 {
        return Error;
      }
      WriteControl(CLOSE, ToBigEndian(code, 2), tx);
      assert msgBuf[..msgLen] == s.msg;
      return Close;
    }

    method Heartbeat(tx: Buffer)
      requires Valid() && tx.Valid() && msgBuf != tx.data
      modifies this, tx, tx.data
      ensures Valid() && tx.Valid()
      ensures var r := Sessions.Heartbeat(cfg, old(View()), [], old(tx.View()).Room());
              View() == r.session
              && |r.output| <= old(tx.View()).Room() && tx.View() == old(tx.View()).Wrote(r.output)
    {
      hide ControlFrame;
      ghost var s := View();
      if tx.Room() >= 6 {
        WriteControl(PING, [], tx);
      }
      assert msgBuf[..msgLen] == s.msg;
    }
  }

  lemma ReplyBytes(payload: seq<byte>)
    ensures var code := CloseCode(payload);
            CloseReply(payload) == [0x88, 0x82, 0xDE, 0xAD, 0xBE, 0xEF,
                                    Xor(0xDE, (code / 256) as byte), Xor(0xAD, (code % 256) as byte)]
  {
  }

  lemma HandshakeBounds(key: seq<byte>, s: seq<byte>)
    ensures ReadHandshake(key, s).0 <= |s|
  {
  }
}
