/** What a connection may expect of its transport, and the plain one. */
module Transports {
  import opened Bytes
  import opened Buffers

  /** `Progress` is the source's "ok": some bytes were moved. */
  datatype Outcome = Progress | PeerClosed | Failed | WantRead | WantWrite

  predicate WouldBlock(o: Outcome) {
    o == WantRead || o == WantWrite
  }

  /** Reading: any outcome, and bytes that fit. The plain transport delivers bytes exactly when
      it reports success, and never asks for writability. */
  predicate ReadAllowed(plain: bool, o: Outcome, bytes: seq<byte>, room: nat) {
    |bytes| <= room && (plain ==> (o == Progress <==> bytes != []) && o != WantWrite)
  }

  /** Writing: bytes are taken only on success. The plain transport never reports a closed peer
      and never asks for readability. */
  predicate WriteAllowed(plain: bool, o: Outcome, taken: nat, size: nat) {
    taken <= size && (o != Progress ==> taken == 0) && (plain ==> o in {Progress, Failed, WantWrite})
  }

  /** One system call: bytes moved, end of stream, would block, interrupted, or another error. */
  datatype Read = Got(bytes: seq<byte>) | Eof | ReadAgain | ReadInterrupted | ReadError
  datatype Write = Took(n: nat) | WriteAgain | WriteInterrupted | WriteError

  /** How the kernel answers reads: with some bytes, but no more than asked for. */
  ghost predicate Answers(answers: seq<Read>, room: nat) {
    forall i :: 0 <= i < |answers| && answers[i].Got? ==> 0 < |answers[i].bytes| <= room
  }

  ghost predicate Takes(answers: seq<Write>, size: nat) {
    forall i :: 0 <= i < |answers| && answers[i].Took? ==> answers[i].n <= size
  }

  /** The plain transport's read: `answers` are the answers of successive calls; interrupted calls
      are repeated. Past the recorded answers the kernel would block. */
  method PlainRead(answers: seq<Read>, rx: Buffer) returns (o: Outcome, calls: nat)
    requires rx.Valid() && !rx.Full() && Answers(answers, rx.Room())
    modifies rx, rx.data
    ensures rx.Valid() && calls <= |answers|
    ensures forall i :: 0 <= i < calls ==> answers[i].ReadInterrupted?
    ensures var answer := if calls < |answers| then answers[calls] else ReadAgain;
            var bytes := if answer.Got? then answer.bytes else [];
            !answer.ReadInterrupted?
            && |bytes| <= old(rx.View()).Room() && rx.View() == old(rx.View()).Wrote(bytes)
            && ReadAllowed(true, o, bytes, old(rx.View()).Room())
            && (o == PeerClosed <==> answer.Eof?) && (o == WantRead <==> answer.ReadAgain?)
  {
    calls := 0;
    while calls < |answers|
      invariant calls <= |answers| && unchanged(rx) && unchanged(rx.data)
      invariant forall i :: 0 <= i < calls ==> answers[i].ReadInterrupted?
    {
      match answers[calls]
      case Got(bytes) =>
        rx.Append(bytes);
        return Progress, calls;
      case Eof => return PeerClosed, calls;
      case ReadAgain => return WantRead, calls;
      case ReadInterrupted => calls := calls + 1;
      case ReadError => return Failed, calls;
    }
    return WantRead, calls;
  }

  /** The plain transport's write. */
  method PlainWrite(answers: seq<Write>, tx: Buffer) returns (o: Outcome, calls: nat)
    requires tx.Valid() && Takes(answers, |tx.View().contents|)
    modifies tx
    ensures tx.Valid() && calls <= |answers|
    ensures forall i :: 0 <= i < calls ==> answers[i].WriteInterrupted?
    ensures var answer := if calls < |answers| then answers[calls] else WriteAgain;
            var taken := if answer.Took? then answer.n else 0;
            !answer.WriteInterrupted?
            && taken <= |old(tx.View()).contents| && tx.View() == old(tx.View()).Read(taken)
            && WriteAllowed(true, o, taken, |old(tx.View()).contents|)
            && (o == Progress <==> answer.Took?) && (o == WantWrite <==> answer.WriteAgain?)
  {
    calls := 0;
    while calls < |answers|
      invariant calls <= |answers| && unchanged(tx)
      invariant forall i :: 0 <= i < calls ==> answers[i].WriteInterrupted?
    {
      match answers[calls]
      case Took(n) =>
        tx.IncRpos(n);
        return Progress, calls;
      case WriteAgain => return WantWrite, calls;
      case WriteInterrupted => calls := calls + 1;
      case WriteError => return Failed, calls;
    }
    return WantWrite, calls;
  }
}
