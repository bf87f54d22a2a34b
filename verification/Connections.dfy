/** The connection: one socket, two buffers and a protocol session driven by edge events. */
module Connections {
  import opened Bytes
  import opened Options
  import opened Buffers
  import opened Protocols
  import opened CallOrder
  import opened Feedings
  import opened Kernels
  import opened Transports
  import opened Dialing

  const RX_CAP: nat := 0x10_0000
  const TX_CAP: nat := 0x10_0000

  datatype State =
    | Uninitialized | InProgress | InTransport | InProtocol
    | CloseProtocol | DrainProtocol | CloseTransport | Closed | InError

  /** Inside one event the state only ever moves up. */
  function Rank(s: State): nat {
    match s
    case Uninitialized => 0
    case InProgress => 1
    case InTransport => 2
    case InProtocol => 3
    case CloseProtocol => 4
    case DrainProtocol => 5
    case CloseTransport => 6
    case Closed => 7
    case InError => 7
  }

  /** Normal operation is over. */
  predicate Ending(s: State) {
    Rank(s) >= 4
  }

  datatype Event = Event(readable: bool, writeable: bool, error: bool, close: bool)

  /** What can be asked of a connection. */
  datatype Request = Attaching | Happened(ev: Event) | Stopping | Restarting | Beating

  /** Which optional handlers the protocol has, which optional steps the transport has, and
      whether it is the plain one. */
  datatype Features = Features(
    connect: bool, heartbeat: bool, shutdown: bool, teardown: bool,
    handshake: bool, closing: bool, plain: bool)

  /** The only open socket is this connection's, and it is open as long as the connection has it. */
  ghost predicate OwnsSocket(kernel: Kernel, fd: int) {
    kernel.Valid() && fd >= -1 && kernel.open == (if fd == -1 then {} else {fd})
  }

  ghost predicate BuffersSound(rx: Fifo, tx: Fifo) {
    rx.Valid() && rx.cap == RX_CAP && tx.Valid() && tx.cap == TX_CAP
  }

  /** No callback came out of order, and none comes after the teardown. */
  ghost predicate CallsInOrder(stage: Stage, fd: int) {
    stage != Bad && (fd != -1 ==> stage != Torn)
  }

  /** Once a shutdown callback said close, what it wrote stays the last thing written. */
  ghost predicate FarewellLast<S(!new)>(
    p: Protocol<S>, stage: Stage, bade: bool, written: seq<byte>, farewell: Farewell<S>) {
    && (bade ==> stage in {Shut, Torn} && EndsWith(written, farewell.bytes) && Final(p, farewell))
    && (stage == Shut ==> bade)
  }

  /** What a shutdown callback wrote when it said close, and the session it was asked of. */
  datatype Farewell<S> = Farewell(asked: S, bytes: seq<byte>)

  ghost predicate Final<S(!new)>(p: Protocol<S>, f: Farewell<S>) {
    exists input, room ::
      p.onShutdown(f.asked, input, room).status == Close && p.onShutdown(f.asked, input, room).output == f.bytes
  }

  /** Shutdown callbacks always give a verdict at once. */
  ghost predicate Prompt<S(!new)>(p: Protocol<S>) {
    forall s, input, room :: p.onShutdown(s, input, room).status != Ok
  }

  ghost predicate EndsWith(s: seq<byte>, t: seq<byte>) {
    |t| <= |s| && s[|s| - |t|..] == t
  }

  /** Some callback was made, in order, and no teardown yet. */
  predicate InUse(st: Stage) {
    st == Live || st == Shutting || st == Shut
  }

  /** The ways a connection can fail. */
  datatype Why =
    | ReadFailed | WriteFailed | PeerGone | StepFailed | ErrorVerdict | Overflow | NoConnection

  /** The first failure since the last dial: the state it struck, whether the connection had
      begun to end by then, and the protocol's last verdict. */
  datatype Cause = Cause(at: State, why: Why, ending: bool, verdict: Option<Status>)

  /** The failures whose error state is overwritten at once: a write that fails while a close
      verdict is being followed, and a read that fails or a read buffer that is full while the
      connection drains. */
  predicate Overwritten(c: Cause) {
    || (c.at == InProtocol && c.why == WriteFailed && c.ending && c.verdict == Some(Close))
    || (c.at == DrainProtocol && c.why in {ReadFailed, Overflow})
  }

  /** What one write means for the flush. */
  datatype Next = More | Blocked | Broke

  predicate Talking(s: State) {
    s == InProtocol || s == CloseProtocol
  }

  class Connection<S(!new)> {
    const p: Protocol<S>
    const has: Features

    var state: State
    var fd: int
    var rx: Fifo
    var tx: Fifo
    var session: S
    var attached: bool
    var dials: nat  // numbers the sessions, each with its own random source

    // Over the whole life of the connection
    ghost var kernel: Kernel
    ghost var log: seq<Request>  // all that was asked of it

    // Since the last dial
    ghost var trace: seq<Call>
    ghost var written: seq<byte>   // by the protocol
    ghost var sent: seq<byte>      // taken by the transport
    ghost var received: seq<byte>  // delivered by the transport
    ghost var eaten: seq<byte>     // consumed by the protocol
    ghost var fault: bool          // something failed,
    ghost var cause: Option<Cause>   // and this was it
    ghost var ending: bool         // stop, end of stream, or a close verdict
    ghost var bade: bool           // a shutdown callback said close,
    ghost var farewell: Farewell<S>  // and this was it

    ghost var birth: S             // the session it began with
    ghost var feeding: Feeding<S>  // what became of it in normal operation

    // What the environment last said, and whether a write was tried since the last event
    ghost var lastRead: Option<Outcome>
    ghost var lastWrite: Option<Outcome>
    ghost var lastStep: Option<Outcome>     // of the transport's handshake and shutdown,
    ghost var firstStep: Option<Outcome>    // the first of them since the last event
    ghost var lastVerdict: Option<Status>   // of the protocol
    ghost var lastInput: seq<byte>          // it was last shown
    ghost var refused: bool                 // no socket, no connection or no endpoint
    ghost var asked: bool                   // to stop
    ghost var tried: bool
    ghost var steps: nat                    // taken in all

    // ----- Invariants

    ghost function Stage(): Stage
      reads this
    {
      StageOf(has.connect, trace)
    }

    /** What no step ever breaks. */
    ghost predicate Base()
      reads this
    {
      && LawfulProtocol(p) && (has.plain ==> !has.handshake && !has.closing)
      && OwnsSocket(kernel, fd)
      && BuffersSound(rx, tx) && sent + tx.contents == written && eaten <= received
      && CallsInOrder(Stage(), fd)
      && FarewellLast(p, Stage(), bade, written, farewell) && (bade <==> Shutdown(Close) in trace)
      && (fault <==> cause.Some?)
      && (bade && FailedClosing() ==> tx.contents == [])
    }

    /** The first failure came only when nothing but the transport was left to close. */
    ghost predicate FailedClosing()
      reads this
    {
      cause.Some? && cause.value.at == CloseTransport
    }

    /** Closing the transport was reached before anything failed. */
    ghost predicate PastDraining()
      reads this
    {
      (!fault && state in {CloseTransport, Closed}) || FailedClosing()
    }

    /** What each state means. */
    ghost predicate Placed()
      reads this
    {
      match state
      case Uninitialized => trace == [] && !fault && !ending && !bade && Untouched()
      case InProgress => fd != -1 && trace == [] && !fault && !ending && !bade && Untouched()
      case InTransport =>
        fd != -1 && trace == [] && !fault && !ending && !bade && Untouched() && has.handshake
      case InProtocol => fd != -1 && Ready(has.connect, Stage()) && !fault && !bade && AllKept()
      case CloseProtocol =>
        fd != -1 && has.shutdown && (Ready(has.connect, Stage()) || Stage() == Shutting)
        && !fault && ending && !bade && AllKept()
      case DrainProtocol =>
        (ending || fault) && (fd == -1 ==> fault) && (has.shutdown && fd != -1 ==> bade)
      case CloseTransport => (ending || fault) && (bade && !fault ==> tx.contents == [])
                             && (fd == -1 ==> fault)
      case Closed => (ending || fault) && fd == -1 && (bade && !fault ==> tx.contents == [])
      case InError => fault && fd == -1
    }

    /** Nothing has been received or written yet. */
    ghost predicate Untouched()
      reads this
    {
      received == [] && eaten == [] && rx.contents == []
      && written == [] && tx == Empty(TX_CAP) && session == birth
    }

    /** No received byte is lost: each was consumed in order or is still in the buffer. */
    ghost predicate AllKept()
      reads this
    {
      received == eaten + rx.contents
    }

    ghost predicate Core()
      reads this
    {
      Base() && Placed() && Covered()
    }

    /** The failure was one whose error state is overwritten. */
    ghost predicate Masked()
      reads this
    {
      cause.Some? && Overwritten(cause.value)
    }

    /** On the plain transport a failure costs the socket, and only a failure whose error state
        is overwritten leads to an ending other than the error state. */
    ghost predicate Covered()
      reads this
    {
      has.plain && fault ==>
        fd == -1 && (state in {DrainProtocol, CloseTransport, Closed} ==> Masked())
    }

    /** Normal operation is left exactly when something said so, and a connection in the error
        state had a failure that is not overwritten. */
    ghost predicate Accounted()
      reads this
    {
      (Ending(state) <==> fault || ending) && (has.plain && state == InError ==> !Masked())
    }

    /** The socket is watched for exactly this. */
    ghost predicate Watches(read: bool, write: bool)
      reads this
    {
      fd in kernel.interest && kernel.interest[fd] == Interest(read, write)
    }

    /** The socket is watched for exactly what the last write asked for. */
    ghost predicate Asks(last: Option<Outcome>)
      reads this
    {
      && (last == Some(WantWrite) ==> Watches(Talking(state), true))
      && (last == Some(WantRead) ==> Watches(true, tx.contents != []) && !has.plain)
    }

    /** The socket is watched for at least this. */
    ghost predicate Watching(read: bool, write: bool)
      reads this
    {
      fd in kernel.interest && (read ==> kernel.interest[fd].read) && (write ==> kernel.interest[fd].write)
    }

    /** While it waits for the peer, the connection watches for everything it can use, and on the
        plain transport for nothing else. */
    ghost predicate Armed()
      reads this
    {
      && (state == InProgress ==> Watches(false, true))
      && (Talking(state) ==> Watching(true, tx.contents != []) && (tx.contents != [] ==> WriteRefused()))
      && (Talking(state) && has.plain ==> Watches(true, tx.contents != []))
    }

    /** Bytes are left to write only because the transport would not take them. */
    ghost predicate WriteRefused()
      reads this
    {
      lastWrite.Some? && WouldBlock(lastWrite.value)
    }

    /** No received byte is kept from the protocol: it was shown all that is left and took none. */
    ghost predicate Exhausted()
      reads this
    {
      rx.contents == [] || lastInput == rx.contents
    }

    /** Normal operation has been a feeding of all that was received. */
    ghost predicate AsFed()
      reads this
    {
      FedSoFar(p, has.connect, birth, feeding, Books(), TX_CAP)
    }

    ghost predicate HalfFed()
      reads this
    {
      FedHalfway(p, has.connect, birth, feeding, Books(), TX_CAP)
    }

    ghost function Books(): Ledger<S>
      reads this
    {
      Ledger(trace, received, session, rx.contents, written)
    }

    /** The environment gave this reason to fail. */
    ghost predicate Evidence(why: Why)
      reads this
    {
      match why
      case ReadFailed => lastRead == Some(Failed)
      case WriteFailed => lastWrite == Some(Failed)
      case PeerGone => lastWrite == Some(PeerClosed)
      case StepFailed => lastStep == Some(Failed) || lastStep == Some(PeerClosed)
      case ErrorVerdict => lastVerdict == Some(Error)
      case Overflow => rx.Full()
      case NoConnection => refused
    }

    /** Notes a failure, unless it is not the first. */
    ghost method Fail(why: Why)
      requires Evidence(why) && (fault <==> cause.Some?)
      modifies `fault, `cause
      ensures fault && cause == if old(fault) then old(cause) else Some(Cause(state, why, ending, lastVerdict))
    {
      if !fault {
        fault, cause := true, Some(Cause(state, why, ending, lastVerdict));
      }
    }

    /** The environment gave a reason to finish: a verdict, the end of the stream, or a request. */
    ghost method End()
      requires lastVerdict == Some(Close) || lastRead == Some(PeerClosed) || asked
      modifies `ending
      ensures ending
    {
      ending := true;
    }

    ghost predicate Done()
      reads this
    {
      state == Closed || state == InError
    }

    /** The protocol said its farewell, or a fault ended the connection while it was asked to. */
    ghost predicate Parted()
      reads this
    {
      bade || (Done() && cause.Some? && cause.value.at == CloseProtocol)
    }

    /** What holds whenever no call is in progress. */
    ghost predicate Resting()
      reads this
    {
      && Core() && Armed()
      && Accounted()
      // an open socket is watched; a resting drain has bytes to write and waits to write them
      && (fd != -1 ==> Watching(true, false) || Watching(false, true))
      && (state == DrainProtocol ==>
            fd != -1 && tx.contents != [] && WriteRefused()
            && if has.plain then Watches(false, true) else Watching(false, true))
      && (Talking(state) ==> Exhausted()) && (state == InProtocol ==> AsFed())
      // state and socket agree
      && (state in {Uninitialized, Closed, InError} ==> fd == -1)
      && (!has.closing ==> (fd == -1 <==> state in {Uninitialized, Closed, InError}))
      && (has.plain ==> state != CloseTransport && (fault ==> Done()))
      // a failure ends in the error state unless it is one that is overwritten
      && (has.plain && fault ==> (state == Closed <==> Masked()))
    }

    // ----- Small steps

    constructor (p: Protocol<S>, has: Features)
      requires LawfulProtocol(p) && (has.plain ==> !has.handshake && !has.closing)
      ensures Resting() && state == Uninitialized && !attached && this.p == p && this.has == has
      ensures log == [] && session == p.create(0) && dials == 0 && rx == tx == Empty(0x10_0000)
    {
      this.p, this.has := p, has;
      state, fd, attached := Uninitialized, -1, false;
      rx, tx, session := Empty(RX_CAP), Empty(TX_CAP), p.create(0);
      kernel, dials, log := NO_SOCKETS, 0, [];
      trace, written, sent, received, eaten := [], [], [], [], [];
      fault, cause, ending := false, None, false;
      bade, farewell, birth := false, Farewell(p.create(0), []), p.create(0);
      feeding := Feeding(p.create(0), [], p.create(0), [], false, false);
      lastRead, lastWrite, lastStep, firstStep, lastVerdict := None, None, None, None, None;
      refused, asked, tried, lastInput, steps := false, false, false, [], 0;
    }

    method Teardown()
      requires Base()
      modifies `fd, `trace, `kernel
      ensures Base() && fd == -1
      ensures old(fd) == -1 ==> trace == old(trace) && kernel == old(kernel)
      ensures old(fd) != -1 ==> trace == if has.teardown then old(trace) + [CallOrder.Teardown] else old(trace)
      ensures Quiet(old(trace), trace)
    {
      hide FedSoFar, LawfulProtocol, BuffersSound, FarewellLast, StageOf;
      if fd != -1 {
        if has.teardown {
          CallTeardown();
        }
        kernel := kernel.Clear(fd);
        kernel := kernel.Close(fd);
        fd := -1;
      }
    }

    /** The last callback of a dial; it may come at any stage but only once. */
    ghost method CallTeardown()
      requires Base() && fd != -1
      modifies `trace
      ensures trace == old(trace) + [CallOrder.Teardown] && Stage() == Torn
      ensures (bade <==> Shutdown(Close) in trace) && FarewellLast(p, Stage(), bade, written, farewell)
    {
      hide FedSoFar, LawfulProtocol, BuffersSound, OwnsSocket, Final, EndsWith, StageOf;
      StageAppend(has.connect, trace, CallOrder.Teardown);
      trace := trace + [CallOrder.Teardown];
    }

    method EnterError(ghost why: Why)
      requires Base() && Evidence(why)
      requires state == CloseTransport && bade && !fault ==> tx.contents == []
      modifies `state, `fd, `trace, `kernel, `fault, `cause
      ensures Core() && Armed() && state == InError && fault && Quiet(old(trace), trace)
      ensures cause == if old(fault) then old(cause) else Some(Cause(old(state), why, ending, lastVerdict))
      ensures OnlyTeardown(old(trace), trace)
    {
      hide FedSoFar, LawfulProtocol, BuffersSound, FarewellLast, OwnsSocket, CallsInOrder;
      Fail(why);
      state := InError;
      Teardown();
    }

    method EnterClosed()
      requires Base() && (ending || fault) && (bade && !fault ==> tx.contents == [])
      requires has.plain && fault ==> Masked()
      modifies `state, `fd, `trace, `kernel
      ensures Core() && Armed() && state == Closed && Quiet(old(trace), trace)
      ensures OnlyTeardown(old(trace), trace)
    {
      hide FedSoFar, LawfulProtocol, BuffersSound, FarewellLast, OwnsSocket, CallsInOrder;
      state := Closed;
      Teardown();
    }

    method EnterCloseTransport()
      requires Base() && (ending || fault) && (bade && !fault ==> tx.contents == []) && (fd == -1 ==> fault)
      requires has.plain && fault ==> fd == -1 && Masked()
      modifies `state
      ensures Core() && Armed() && state == CloseTransport
    {
      hide FedSoFar, LawfulProtocol, BuffersSound, FarewellLast, OwnsSocket, CallsInOrder, StageOf;
      state := CloseTransport;
    }

    method EnterDrain()
      requires Base() && (ending || fault) && (fd == -1 ==> fault) && (has.shutdown && fd != -1 ==> bade)
      requires has.plain && fault ==> fd == -1 && Masked()
      modifies `state
      ensures Core() && Armed() && state == DrainProtocol
    {
      hide FedSoFar, LawfulProtocol, BuffersSound, FarewellLast, OwnsSocket, CallsInOrder, StageOf;
      state := DrainProtocol;
    }

    /** Asks the network for the next edge. */
    method Arm(o: Outcome, ghost why: Why)
      requires Core() && (o == Failed ==> Evidence(why))
      modifies `state, `fd, `trace, `kernel, `fault, `cause
      ensures Core() && Quiet(old(trace), trace)
      ensures o == Failed ==>
                state == InError && fault
                && cause == if old(fault) then old(cause) else Some(Cause(old(state), why, ending, lastVerdict))
      ensures o != Failed ==> SameBut(old(state), old(fd), old(cause), old(trace))
      ensures o == WantRead && fd != -1 ==> Watches(true, tx.contents != [])
      ensures o == WantWrite && fd != -1 ==> Watches(Talking(state), true)
      ensures !WouldBlock(o) && o != Failed ==> kernel == old(kernel)
      ensures OnlyTeardown(old(trace), trace)
    {
      hide FedSoFar, LawfulProtocol, BuffersSound, FarewellLast, CallsInOrder;
      match o
      case WantRead =>
        kernel := kernel.Subscribe(fd, true, tx.contents != []);
      case WantWrite =>
        kernel := kernel.Subscribe(fd, Talking(state), true);
      case Failed =>
        EnterError(why);
      case _ =>
    }

    /** The transport takes some bytes from the front of the write buffer. */
    method EndpointWrite() returns (o: Outcome)
      requires Base()
      modifies `tx, `sent, `lastWrite, `tried
      ensures Base() && |tx.contents| <= |old(tx.contents)|
      ensures o != Progress ==> tx == old(tx) && sent == old(sent)
      ensures has.plain ==> o in {Progress, Failed, WantWrite}
      ensures tried && lastWrite == Some(if o == Progress && |tx.contents| == |old(tx.contents)| then WantWrite else o)
    {
      hide FedSoFar, LawfulProtocol, FarewellLast, OwnsSocket, CallsInOrder;
      var taken: nat;
      o, taken := *, *;
      if !WriteAllowed(has.plain, o, taken, |tx.contents|) {
        o, taken := WantWrite, 0;
      }
      lastWrite := Some(if o == Progress && taken == 0 then WantWrite else o);
      tried := true;
      sent := sent + tx.contents[..taken];
      tx := tx.Read(taken);
    }

    /** One write: goes on, waits for an edge, or breaks the connection. */
    method WriteOnce() returns (next: Next)
      requires Core() && fd != -1 && tx.contents != []
      modifies `state, `fd, `tx, `sent, `lastWrite, `tried, `trace, `kernel, `fault, `cause
      ensures Core() && Quiet(old(trace), trace)
      ensures next != Broke ==> SameBut(old(state), old(fd), old(cause), old(trace))
      ensures next == More ==> |tx.contents| < |old(tx.contents)| && kernel == old(kernel)
      ensures next == Blocked ==> tx.contents != [] && Watching(Talking(state), true) && WriteRefused()
      ensures tried
      ensures next == Blocked ==> Asks(lastWrite)
      ensures next == Broke ==> fault && (state == InError || (state == CloseTransport && !has.plain))
      ensures fd != -1 ==> fd == old(fd) && trace == old(trace)
      ensures state != InError ==> fd == old(fd)
      ensures next == Broke && state != InError ==> kernel == old(kernel)
      ensures next == Broke ==> BrokeAt(old(state), old(fault), old(cause))
      ensures OnlyTeardown(old(trace), trace)
    {
      hide FedSoFar, LawfulProtocol, BuffersSound, FarewellLast, CallsInOrder, OwnsSocket, StageOf, Quiet, OnlyTeardown;
      OnlyTeardownRefl(trace);
      QuietRefl(trace);
      var before := |tx.contents|;
      var o := EndpointWrite();
      if o == PeerClosed && state != InError {
        LosePeer();
        return Broke;
      } else if o != Progress {
        Arm(o, WriteFailed);
        return if o == Failed then Broke else Blocked;
      }
      if |tx.contents| == before {
        Arm(WantWrite, WriteFailed);
        return Blocked;
      }
      return More;
    }

    /** The peer is gone but the socket is not: only the transport is left to close. */
    method LosePeer()
      requires Base() && fd != -1 && !has.plain && lastWrite == Some(PeerClosed)
      requires state == CloseTransport && bade && !fault ==> tx.contents == []
      modifies `state, `fault, `cause
      ensures Core() && state == CloseTransport && fault
      ensures cause == if old(fault) then old(cause) else Some(Cause(old(state), PeerGone, ending, lastVerdict))
    {
      hide FedSoFar, LawfulProtocol, BuffersSound, FarewellLast, OwnsSocket, CallsInOrder, StageOf;
      Fail(PeerGone);
      state := CloseTransport;
    }

    /** A write broke the connection, which noted it as the failure if it was the first. */
    ghost predicate BrokeAt(state: State, fault: bool, cause: Option<Cause>)
      reads this
    {
      this.fault && this.cause ==
        if fault then cause
        else Some(Cause(state, if this.state == InError then WriteFailed else PeerGone, ending, lastVerdict))
    }

    /** Nothing but the buffers and the watch moved. */
    ghost predicate SameBut(state: State, fd: int, cause: Option<Cause>, trace: seq<Call>)
      reads this
    {
      this.state == state && this.fd == fd && fault == cause.Some? && this.cause == cause && this.trace == trace
    }

    /** Flushes the write buffer as far as the transport lets it. */
    method TransportWrite(rearm: bool) returns (flushed: bool)
      requires Core()
      modifies `state, `fd, `tx, `sent, `lastWrite, `tried, `trace, `kernel, `fault, `cause
      ensures Core() && Quiet(old(trace), trace)
      ensures flushed ==>
                SameBut(old(state), old(fd), old(cause), old(trace)) && (fd == -1 || tx.contents == [])
      ensures old(fd) == -1 ==> flushed && tx == old(tx) && kernel == old(kernel)
      ensures !flushed ==>
                (SameBut(old(state), old(fd), old(cause), old(trace))
                 && tx.contents != [] && Watching(Talking(state), true) && WriteRefused() && Asks(lastWrite))
                || (BrokeAt(old(state), old(fault), old(cause))
                    && (state == InError || (state == CloseTransport && !has.plain)))
      ensures fd != -1 ==> fd == old(fd) && trace == old(trace)
      ensures state != InError ==> fd == old(fd)
      ensures state !in {InError, old(state)} ==> kernel == old(kernel)
      ensures rearm && Talking(state) ==> Watching(true, tx.contents != []) && (tx.contents != [] ==> WriteRefused())
      ensures rearm && Talking(state) && flushed ==> Watches(true, false)
      ensures (!flushed || old(tried)) ==> tried
      ensures !rearm && flushed ==> kernel == old(kernel)
      ensures OnlyTeardown(old(trace), trace)
    {
      hide FedSoFar, LawfulProtocol, BuffersSound, FarewellLast, CallsInOrder, StageOf, OnlyTeardown;
      OnlyTeardownRefl(trace);
      while fd != -1 && tx.contents != []
        invariant Core() && SameBut(old(state), old(fd), old(cause), old(trace)) && kernel == old(kernel)
        invariant old(fd) == -1 ==> tx == old(tx)
        invariant old(tried) ==> tried
        decreases |tx.contents|
      {
        var next := WriteOnce();
        if next != More {
          return false;
        }
      }
      if rearm && fd != -1 && Talking(state) {
        kernel := kernel.Subscribe(fd, true, false);
      }
      return true;
    }

    /** A flush in normal operation. */
    method Flush()
      requires Core() && state == InProtocol && !ending
      modifies `state, `fd, `tx, `sent, `lastWrite, `tried, `trace, `kernel, `fault, `cause
      ensures Core() && Armed() && Rank(state) >= 3 && Accounted() && Quiet(old(trace), trace)
      ensures state == InProtocol ==> trace == old(trace)
      ensures state in {InProtocol, CloseTransport, InError}
      ensures state == CloseTransport ==> !has.plain && fd == old(fd) && kernel == old(kernel)
    {
      hide FedSoFar, Base, StageOf, Quiet;
      var _ := TransportWrite(true);
    }

    // ----- Protocol callbacks

    /** Books one callback: its session, what it consumed and what it wrote. */
    method Apply(r: Reply<S>, call: Call)
      requires Base() && AllKept() && r.consumed <= |rx.contents| && |r.output| <= tx.Room()
      requires !bade && !fault && InUse(StageAfter(has.connect, Stage(), call))
      requires call == Shutdown(Close) ==> Final(p, Farewell(session, r.output))
      modifies `session, `lastVerdict, `lastInput, `rx, `tx, `trace, `written, `eaten, `bade,
               `farewell
      ensures Base() && AllKept() && trace == old(trace) + [call]
      ensures session == r.session && rx == old(rx).Read(r.consumed) && tx == old(tx).Wrote(r.output)
      ensures written == old(written) + r.output
      ensures Stage() == StageAfter(has.connect, old(Stage()), call)
      ensures bade <==> call == Shutdown(Close)
      ensures lastVerdict == Some(r.status)
      ensures lastInput == if call == Data || call.Shutdown? then old(rx.contents) else old(lastInput)
    {
      hide FedSoFar, LawfulProtocol, OwnsSocket, FarewellLast, StageOf, StageAfter, EndsWith, CallsInOrder;
      ReadBy(r.consumed);
      WriteBy(r.output);
      Record(call, r.output);
      session := r.session;
      News(r.status, if call == Data || call.Shutdown? then old(rx.contents) else lastInput);
    }

    ghost method News(status: Status, input: seq<byte>)
      requires Base() && AllKept()
      modifies `lastVerdict, `lastInput
      ensures Base() && AllKept() && lastVerdict == Some(status) && lastInput == input
    {
      hide FedSoFar, LawfulProtocol, OwnsSocket, FarewellLast, StageOf, CallsInOrder, BuffersSound;
      lastVerdict, lastInput := Some(status), input;
    }

    method ReadBy(n: nat)
      requires Base() && AllKept() && n <= |rx.contents|
      modifies `rx, `eaten
      ensures Base() && AllKept() && rx == old(rx).Read(n)
    {
      hide FedSoFar, LawfulProtocol, OwnsSocket, FarewellLast, StageOf, CallsInOrder;
      Consumed(eaten, rx, n);
      eaten := eaten + rx.contents[..n];
      rx := rx.Read(n);
    }

    method WriteBy(output: seq<byte>)
      requires Base() && !bade && |output| <= tx.Room()
      modifies `tx, `written
      ensures Base() && tx == old(tx).Wrote(output)
      ensures written == old(written) + output && EndsWith(written, output)
    {
      hide FedSoFar, LawfulProtocol, OwnsSocket, StageOf, CallsInOrder, Final;
      Regroup(sent, tx.contents, output);
      tx := tx.Wrote(output);
      written := written + output;
    }

    ghost method Record(call: Call, output: seq<byte>)
      requires Base() && !bade && !fault && InUse(StageAfter(has.connect, Stage(), call))
      requires EndsWith(written, output) && (call == Shutdown(Close) ==> Final(p, Farewell(session, output)))
      modifies `trace, `bade, `farewell
      ensures Base() && trace == old(trace) + [call]
      ensures Stage() == StageAfter(has.connect, old(Stage()), call)
      ensures bade <==> call == Shutdown(Close)
    {
      hide FedSoFar, LawfulProtocol, OwnsSocket, FarewellLast, StageOf, StageAfter, EndsWith, BuffersSound;
      StageAppend(has.connect, trace, call);
      ShutOnlyByClose(has.connect, Stage(), call);
      trace := trace + [call];
      if call == Shutdown(Close) {
        bade, farewell := true, Farewell(session, output);
      }
      Booked(p, Stage(), bade, written, farewell, output);
    }

    /** Asks the protocol to shut down, again and again while it reads frames and says go on. */
    method ShutdownLoop() returns (waits: bool, ghost last: nat)
      requires Core() && state == CloseProtocol
      modifies `state, `fd, `rx, `tx, `session, `lastVerdict, `lastInput, `trace, `kernel, `written,
               `sent, `lastWrite, `tried, `eaten, `fault, `cause, `bade, `farewell
      ensures Core() && Armed() && Quiet(old(trace), trace)
      ensures waits <==> state == CloseProtocol
      ensures Ending(state) && (fault ==> cause.value.at == CloseProtocol)
      ensures Prompt(p) ==> bade || state == InError
      ensures AskedToShut(old(trace), trace) && (waits ==> last == 0 && Exhausted())
    {
      hide FedSoFar, LawfulProtocol, BuffersSound, FarewellLast, OwnsSocket, CallsInOrder, StageOf, Quiet;
      QuietRefl(trace);
      last := 0;
      while true
        invariant Core() && state == CloseProtocol && Quiet(old(trace), trace)
        invariant trace == old(trace) || AskedToShut(old(trace), trace)
        decreases |rx.contents|
      {
        var before := |rx.contents|;
        ghost var trace' := trace;
        var status;
        status, last := ShutdownRound(old(trace));
        if AskedToShut(old(trace), trace') {
          AskedBefore(old(trace), trace', trace);
        }
        if status != Ok || state != CloseProtocol {
          return false, last;
        }
        if before <= |rx.contents| {
          return true, last;
        }
      }
    }

    /** One shutdown callback and what follows it. */
    method ShutdownRound(ghost since: seq<Call>) returns (status: Status, ghost n: nat)
      requires Core() && state == CloseProtocol && Quiet(since, trace)
      modifies `state, `fd, `rx, `tx, `session, `lastVerdict, `lastInput, `trace, `kernel, `written,
               `sent, `lastWrite, `tried, `eaten, `fault, `cause, `bade, `farewell
      ensures Core() && Armed() && Ending(state) && Quiet(since, trace)
      ensures fault ==> cause.value.at == CloseProtocol
      ensures |rx.contents| + n == |old(rx.contents)| && AskedToShut(old(trace), trace)
      ensures n == 0 ==> Exhausted()
      ensures status == Close ==> state == DrainProtocol && bade
      ensures status == Error ==> state == InError
      ensures Prompt(p) ==> status != Ok
    {
      hide FedSoFar, Base, StageOf, Quiet, AskedToShut;
      ghost var before := trace;
      status := CallShutdown();
      AskedNow(before, status);
      n := |old(rx.contents)| - |rx.contents|;
      QuietTrans(since, before, trace);
      before := trace;
      match status
      case Ok =>
        var _ := TransportWrite(true);
        QuietTrans(since, before, trace);
        AskedBefore(old(trace), before, trace);
      case Close =>
        EnterDrain();
      case Error =>
        EnterError(ErrorVerdict);
        QuietTrans(since, before, trace);
        AskedBefore(old(trace), before, trace);
    }

    method CallShutdown() returns (status: Status)
      requires Core() && state == CloseProtocol
      modifies `session, `lastVerdict, `lastInput, `rx, `tx, `trace, `written, `eaten, `bade,
               `farewell
      ensures Base() && AllKept() && trace == old(trace) + [Shutdown(status)] && Quiet(old(trace), trace)
      ensures |rx.contents| <= |old(rx.contents)| && lastInput == old(rx.contents)
      ensures |rx.contents| == |old(rx.contents)| ==> rx.contents == old(rx.contents)
      ensures status == Ok ==> Core()
      ensures var r := p.onShutdown(old(session), old(rx.contents), old(tx.cap) - old(tx.wpos));
              status == r.status && session == r.session && r.consumed <= |old(rx.contents)|
              && rx.contents == old(rx.contents)[r.consumed..] && written == old(written) + r.output
      ensures bade <==> status == Close
      ensures lastVerdict == Some(status)
      ensures Prompt(p) ==> status != Ok
    {
      hide FedSoFar, OwnsSocket, FarewellLast, CallsInOrder, StageOf;
      var r := p.onShutdown(session, rx.contents, tx.Room());
      status := r.status;
      Apply(r, Shutdown(status));
    }

    method EnterCloseProtocol()
      requires Core() && state == InProtocol && ending
      modifies `state, `fd, `rx, `tx, `session, `lastVerdict, `lastInput, `trace, `kernel, `written,
               `sent, `lastWrite, `tried, `eaten, `fault, `cause, `bade, `farewell
      ensures Core() && Armed() && Quiet(old(trace), trace)
      ensures Ending(state) && (fault ==> cause.value.at == CloseProtocol)
      ensures Prompt(p) && has.shutdown ==> bade || state == InError
      ensures if has.shutdown then AskedToShut(old(trace), trace) else state == CloseTransport
      ensures state == CloseProtocol ==> Exhausted()
    {
      hide FedSoFar, LawfulProtocol, BuffersSound, FarewellLast, OwnsSocket, CallsInOrder, StageOf;
      if has.shutdown {
        state := CloseProtocol;
        var _, _ := ShutdownLoop();
      } else {
        EnterCloseTransport();
      }
    }

    /** What a connect or data verdict leads to. */
    method Follow(status: Status)
      requires Core() && state == InProtocol && !ending && lastVerdict == Some(status)
      modifies `state, `fd, `rx, `tx, `session, `lastVerdict, `lastInput, `trace, `kernel, `written,
               `sent, `lastWrite, `tried, `eaten, `fault, `cause, `ending, `bade, `farewell
      ensures Core() && Armed() && Rank(state) >= 3
      ensures Quiet(old(trace), trace)
      ensures Accounted()
      ensures state == InProtocol ==>
                status == Ok && session == old(session) && rx == old(rx) && written == old(written)
      ensures status == Error ==> state == InError
      ensures status == Close ==> if has.shutdown then fault || AskedToShut(old(trace), trace) else ClosedOrDraining()
      ensures state == InProtocol ==> lastInput == old(lastInput) && trace == old(trace)
      ensures state == CloseProtocol ==> Exhausted()
    {
      hide FedSoFar, LawfulProtocol, BuffersSound, FarewellLast, OwnsSocket, CallsInOrder, StageOf;
      match status
      case Ok =>
        Flush();
      case Close =>
        End();
        FollowClose();
      case Error =>
        EnterError(ErrorVerdict);
    }

    /** A close verdict is followed; a failed write on the way does not end in the error state. */
    method FollowClose()
      requires Core() && state == InProtocol && ending && lastVerdict == Some(Close)
      modifies `state, `fd, `rx, `tx, `session, `lastVerdict, `lastInput, `trace, `kernel, `written,
               `sent, `lastWrite, `tried, `eaten, `fault, `cause, `bade, `farewell
      ensures Core() && Armed() && Ending(state) && Quiet(old(trace), trace)
      ensures has.shutdown ==> fault || AskedToShut(old(trace), trace)
      ensures state == CloseProtocol ==> Exhausted()
      ensures state == InError ==> !Masked()
      ensures fault && cause.value.at == InProtocol && cause.value.why == WriteFailed ==>
                state in {CloseTransport, DrainProtocol} && fd == -1
      ensures !has.shutdown ==> ClosedOrDraining()
    {
      hide FedSoFar, LawfulProtocol, BuffersSound, FarewellLast, OwnsSocket, CallsInOrder, StageOf, Quiet;
      var _ := TransportWrite(true);
      ghost var before := trace;
      QuietRefl(trace);
      if has.shutdown {
        if state == InProtocol {
          EnterCloseProtocol();
        } else {
          EnterCloseTransport();
        }
      } else {
        FlushThenClose();
      }
      QuietTrans(old(trace), before, trace);
    }

    /** Everything was flushed, or cannot be, and the transport is next; or bytes are left. */
    ghost predicate ClosedOrDraining()
      reads this
    {
      || (state == CloseTransport && (fd == -1 || tx.contents == []))
      || (state == DrainProtocol && (fault || tx.contents != []))
    }

    /** Without a shutdown handler: a second flush decides between closing and draining. */
    method FlushThenClose()
      requires Core() && (state == InProtocol || fault) && !bade && ending && !has.shutdown
      requires lastVerdict == Some(Close) && (has.plain && fault ==> Masked())
      modifies `state, `fd, `tx, `sent, `lastWrite, `tried, `trace, `kernel, `fault, `cause
      ensures Core() && Armed() && Ending(state) && Quiet(old(trace), trace)
      ensures ClosedOrDraining()
      ensures old(fault) ==> cause == old(cause)
      ensures !old(fault) && fault && cause.value.at == InProtocol && cause.value.why == WriteFailed ==> fd == -1
      ensures old(fd) == -1 ==> fd == -1
    {
      hide FedSoFar, LawfulProtocol, BuffersSound, FarewellLast, OwnsSocket, CallsInOrder, StageOf, Quiet;
      var flushed := TransportWrite(true);
      if flushed {
        EnterCloseTransport();
      } else {
        EnterDrain();
      }
    }

    method CallConnect() returns (status: Status)
      requires Base() && state == InProtocol && fd != -1 && has.connect && trace == []
      requires !fault && !bade && Untouched()
      modifies `session, `lastVerdict, `lastInput, `rx, `tx, `trace, `written, `eaten, `bade,
               `farewell
      ensures Core() && trace == [Connect] && lastVerdict == Some(status)
      ensures rx.contents == [] && (status == Ok ==> Joined(p, true, birth, session, written, TX_CAP))
    {
      hide FedSoFar, OwnsSocket, FarewellLast, CallsInOrder;
      var r := p.onConnect(session, rx.contents, tx.Room());
      status := r.status;
      Apply(r, Connect);
    }

    method CallData() returns (status: Status, ghost room: nat)
      requires Core() && state == InProtocol
      modifies `session, `feeding, `lastVerdict, `lastInput, `rx, `tx, `trace, `written, `eaten, `bade,
               `farewell
      ensures Core() && trace == old(trace) + [Data] && lastVerdict == Some(status)
      ensures room == old(tx.cap) - old(tx.wpos)
      ensures var r := p.onData(old(session), old(rx.contents), room);
              status == r.status && session == r.session
              && r.consumed <= |old(rx.contents)| && rx.contents == old(rx.contents)[r.consumed..]
              && written == old(written) + r.output
      ensures lastInput == old(rx.contents)
      ensures feeding == FeedBoth(p, old(feeding), old(session), old(rx.contents), room, TX_CAP)
    {
      hide FedSoFar, OwnsSocket, FarewellLast, CallsInOrder, StageOf;
      room := tx.Room();
      feeding := FeedBoth(p, feeding, session, rx.contents, room, TX_CAP);
      var r := p.onData(session, rx.contents, tx.Room());
      status := r.status;
      Apply(r, Data);
    }

    lemma CoreFacts()
      requires Core()
      ensures (Talking(state) ==> !fault) && (fault <==> cause.Some?) && (state == CloseProtocol ==> ending)
      ensures (tx.contents == [] ==> sent == written) && (has.plain ==> !has.closing)
    {
      hide FedSoFar, LawfulProtocol, BuffersSound, FarewellLast, OwnsSocket, CallsInOrder, StageOf;
      assert sent + [] == sent;
    }

    lemma InNormalOperation()
      requires Core() && state == InProtocol
      ensures Lawful(p.onData) && !fault
    {
      hide BuffersSound, FarewellLast, OwnsSocket, CallsInOrder, StageOf;
    }

    method EnterProtocol()
      requires Base() && fd != -1 && trace == [] && !fault && !ending && !bade && Untouched()
      modifies `state, `fd, `rx, `tx, `session, `feeding, `lastVerdict, `lastInput, `trace, `kernel, `written,
               `sent, `lastWrite, `tried, `eaten, `fault, `cause, `ending, `bade, `farewell
      ensures Core() && Armed() && Rank(state) >= 3
      ensures Talking(state) ==> Exhausted()
      ensures Accounted() && (state == InProtocol ==> AsFed())
      ensures has.connect ==> |trace| > 0 && trace[0] == Connect
    {
      hide FedSoFar, LawfulProtocol, BuffersSound, FarewellLast, OwnsSocket, CallsInOrder;
      if has.connect {
        Greet();
      } else {
        Proceed();
      }
    }

    method Begin()
      requires Base() && fd != -1 && trace == [] && !fault && !bade && Untouched()
      modifies `state
      ensures Base() && state == InProtocol && Untouched() && (!has.connect ==> Core())
    {
      hide FedSoFar, LawfulProtocol, BuffersSound, FarewellLast, OwnsSocket, CallsInOrder;
      state := InProtocol;
    }

    method Proceed()
      requires Base() && fd != -1 && trace == [] && !fault && !ending && !bade && Untouched() && !has.connect
      modifies `state, `fd, `tx, `feeding, `trace, `kernel, `sent, `lastWrite, `tried, `fault, `cause
      ensures Core() && Armed() && Rank(state) >= 3
      ensures Talking(state) ==> Exhausted()
      ensures Accounted() && (state == InProtocol ==> AsFed())
    {
      hide FedSoFar, Base, StageOf, Quiet;
      Begin();
      Join();
      Flush();
    }

    /** The connect callback and what follows it. */
    method Greet()
      requires Base() && fd != -1 && has.connect && trace == [] && !fault && !ending && !bade && Untouched()
      modifies `state, `fd, `rx, `tx, `session, `feeding, `lastVerdict, `lastInput, `trace, `kernel, `written,
               `sent, `lastWrite, `tried, `eaten, `fault, `cause, `ending, `bade, `farewell
      ensures Core() && Armed() && Rank(state) >= 3
      ensures Talking(state) ==> Exhausted()
      ensures Accounted() && (state == InProtocol ==> AsFed())
      ensures |trace| > 0 && trace[0] == Connect
    {
      hide FedSoFar, Base, Placed, Armed, StageOf, Joined, Accounted, Masked;
      hide AskedToShut, ClosedOrDraining;
      Begin();
      var status := CallConnect();
      if status == Ok {
        Join();
      }
      Follow(status);
    }

    /** Feeding begins with nothing received. */
    ghost method Join()
      requires Core() && state == InProtocol && received == [] && rx.contents == []
      requires Joined(p, has.connect, birth, session, written, TX_CAP)
      modifies `feeding
      ensures Core() && AsFed()
    {
      hide FedSoFar, Joined, LawfulProtocol, BuffersSound, FarewellLast, OwnsSocket, CallsInOrder, StageOf;
      InNormalOperation();
      feeding := Feeding(session, written, session, [], false, false);
      FedNothing(p, has.connect, birth, Books(), TX_CAP);
    }

    // ----- Reading

    /** One data callback and what follows it. */
    method FeedOnce() returns (ghost room: nat)
      requires Core() && state == InProtocol && !ending
      modifies `state, `fd, `rx, `tx, `session, `feeding, `lastVerdict, `lastInput, `trace, `kernel, `written,
               `sent, `lastWrite, `tried, `eaten, `fault, `cause, `ending, `bade, `farewell
      ensures Core() && Armed() && Rank(state) >= 3 && Accounted()
      ensures state == CloseProtocol ==> Exhausted()
      ensures state == InProtocol ==>
                var r := p.onData(old(session), old(rx.contents), room);
                && r.status == Ok && r.consumed <= |old(rx.contents)|
                && session == r.session && rx.contents == old(rx.contents)[r.consumed..]
                && written == old(written) + r.output && lastInput == old(rx.contents)
                && trace == old(trace) + [Data]
                && feeding == FeedBoth(p, old(feeding), old(session), old(rx.contents), room, TX_CAP)
    {
      hide FedSoFar, Lawful, Base, Placed, Armed, StageOf, Quiet, Masked, AskedToShut, ClosedOrDraining;
      var status;
      status, room := CallData();
      Follow(status);
    }

    /** Feeds the read buffer to the protocol until it is empty, makes no progress, or the state
        moves on. If the state stays, exactly the calls of the feeding loop were made, `rooms`
        being the room each of them found. */
    method ProtocolConsume() returns (ghost rooms: seq<nat>)
      requires Core() && Armed() && state == InProtocol && !ending && HalfFed()
      modifies `state, `fd, `rx, `tx, `session, `feeding, `lastVerdict, `lastInput, `trace, `kernel, `written,
               `sent, `lastWrite, `tried, `eaten, `fault, `cause, `ending, `bade, `farewell
      ensures Core() && Armed() && Rank(state) >= 3
      ensures Talking(state) ==> Exhausted()
      ensures Accounted() && (state == InProtocol ==> AsFed())
      ensures state == InProtocol ==>
                Reached(p.onData, old(session), old(rx.contents), old(written), rooms, session, rx.contents, written)
                && Complete(p.onData, old(session), old(rx.contents), rooms)
    {
      hide FedSoFar, FedHalfway, FeedBoth, Lawful, Base, Placed, Armed, StageOf, Quiet;
      hide Masked, Reached, GoesOn, Complete;
      rooms := [];
      InNormalOperation();
      ReachedStart(p.onData, session, rx.contents, written);
      while true
        invariant Core() && Armed() && state == InProtocol && !ending && !fault && HalfFed()
        invariant Reached(p.onData, old(session), old(rx.contents), old(written), rooms, session, rx.contents, written)
        invariant GoesOn(p.onData, old(session), old(rx.contents), rooms) <==> rx.contents != []
        decreases |rx.contents|
      {
        var before := |rx.contents|;
        if before == 0 {
          FedAll(p, has.connect, birth, feeding, Books(), TX_CAP);
          break;
        }
        ghost var s, input, w := session, rx.contents, written;
        ghost var books, meal := Books(), feeding;
        ghost var room := FeedOnce();
        if state != InProtocol {
          return;
        }
        FedNext(p, has.connect, birth, meal, books, room, TX_CAP);
        ReachedNext(p.onData, old(session), old(rx.contents), old(written), rooms, s, input, w, room);
        rooms := rooms + [room];
        if before <= |rx.contents| {
          break;
        }
      }
      ReachedEnd(p.onData, old(session), old(rx.contents), old(written), rooms, session, rx.contents, written);
    }

    /** The transport delivers some bytes into the read buffer, which must have room, or the read
        would look like the end of the stream; `budget` bounds how often the transport can still
        report success before it must say something else. */
    method EndpointRead(budget: nat) returns (o: Outcome, n: nat, ghost bytes: seq<byte>)
      requires Base() && !rx.Full()
      modifies `rx, `received, `lastRead
      ensures Base() && lastRead == Some(o) && (o == Progress ==> budget > 0)
      ensures old(Core()) && Rank(state) >= 3 ==> Core()
      ensures old(Armed()) ==> Armed()
      ensures n == |bytes| && (n == 0 ==> rx == old(rx))
      ensures received == old(received) + bytes && rx.contents == old(rx.contents) + bytes
      ensures has.plain ==> (o == Progress <==> n > 0) && o != WantWrite
    {
      hide FedSoFar, LawfulProtocol, FarewellLast, OwnsSocket, CallsInOrder, StageOf;
      var delivered: seq<byte>;
      o, delivered := *, *;
      if !ReadAllowed(has.plain, o, delivered, rx.Room()) || (o == Progress && budget == 0) {
        o, delivered := WantRead, [];
      }
      n, bytes := |delivered|, delivered;
      Regroup(eaten, rx.contents, bytes);
      if n > 0 {
        rx := rx.Wrote(delivered);
      }
      received := received + bytes;
      lastRead := Some(o);
    }

    /** What the reader in `mode` does with new bytes; says whether to go on reading. */
    method Consume(mode: State) returns (more: bool)
      requires Core() && Armed() && state == mode && mode in {InProtocol, CloseProtocol, DrainProtocol}
      requires mode == InProtocol ==> !ending && HalfFed()
      modifies `state, `fd, `rx, `tx, `session, `feeding, `lastVerdict, `lastInput, `trace, `kernel, `written,
               `sent, `lastWrite, `tried, `eaten, `fault, `cause, `ending, `bade, `farewell
      ensures Core() && Armed() && Rank(state) >= Rank(mode)
      ensures Talking(state) ==> Exhausted()
      ensures more <==> state == mode
      ensures Accounted() && (state == InProtocol ==> AsFed())
      ensures mode != InProtocol ==> Quiet(old(trace), trace) && ending == old(ending)
      ensures mode == DrainProtocol ==> more && DrainedLike(old(fd), old(cause), old(tx), old(bade))
    {
      hide FedSoFar, FedHalfway, LawfulProtocol, BuffersSound, FarewellLast, OwnsSocket, CallsInOrder, StageOf, Quiet;
      QuietRefl(trace);
      match mode
      case InProtocol =>
        ghost var rooms := ProtocolConsume();
        more := state == InProtocol;
      case CloseProtocol =>
        var waits, _ := ShutdownLoop();
        more := waits;
      case _ =>
        more := true;
    }

    ghost predicate DrainedLike(fd: int, cause: Option<Cause>, tx: Fifo, bade: bool)
      reads this
    {
      this.fd == fd && this.cause == cause && this.tx == tx && this.bade == bade
    }

    /** Reads until the transport has nothing more to give, or the state moves on. */
    method TransportRead(mode: State)
      requires Core() && Armed() && state == mode && mode in {InProtocol, CloseProtocol, DrainProtocol}
      requires (mode == InProtocol ==> !ending && AsFed()) && (Talking(mode) ==> Exhausted())
      modifies `state, `fd, `rx, `tx, `session, `feeding, `lastVerdict, `lastInput, `trace, `kernel, `written,
               `sent, `lastWrite, `tried, `eaten, `fault, `cause, `ending, `bade, `farewell, `received,
               `lastRead
      ensures Core() && Armed() && Rank(state) >= Rank(mode)
      ensures Talking(state) ==> Exhausted()
      ensures mode != DrainProtocol ==> Accounted() && (state == InProtocol ==> AsFed())
      ensures mode == DrainProtocol ==> (fault || ending) && (has.plain && state == InError ==> Masked())
      ensures state == mode && Talking(mode) ==> lastRead.Some? && WouldBlock(lastRead.value)
      ensures mode != InProtocol ==> Quiet(old(trace), trace)
      ensures mode == DrainProtocol ==>
                state == InError
                || (state == DrainProtocol && DrainedLike(old(fd), old(cause), old(tx), old(bade)))
      ensures old(received) <= received
      ensures received == old(received) ==>
                OnlyTeardown(old(trace), trace) && written == old(written) && sent == old(sent)
                && state in {mode, CloseTransport, InError}
    {
      hide FedSoFar, LawfulProtocol, Base, Placed, StageOf, Quiet, Armed, OnlyTeardown;
      QuietRefl(trace);
      OnlyTeardownRefl(trace);
      var budget: nat := *;
      while true
        invariant Core() && Armed() && state == mode
        invariant (mode == InProtocol ==> !ending && AsFed()) && (Talking(mode) ==> Exhausted())
        invariant mode != InProtocol ==> Quiet(old(trace), trace)
        invariant mode == DrainProtocol ==> DrainedLike(old(fd), old(cause), old(tx), old(bade))
        invariant old(received) <= received
        invariant received == old(received) ==>
                    OnlyTeardown(old(trace), trace) && written == old(written) && sent == old(sent)
        decreases budget
      {
        ghost var before := trace;
        var again := ReadRound(mode, budget);
        if mode != InProtocol {
          QuietTrans(old(trace), before, trace);
        }
        if received == old(received) {
          OnlyTeardownTrans(old(trace), before, trace);
        }
        if !again {
          return;
        }
        budget := budget - 1;
      }
    }

    /** One read and what is done with it; says whether to read again. */
    method ReadRound(mode: State, budget: nat) returns (again: bool)
      requires Core() && Armed() && state == mode && mode in {InProtocol, CloseProtocol, DrainProtocol}
      requires (mode == InProtocol ==> !ending && AsFed()) && (Talking(mode) ==> Exhausted())
      modifies `state, `fd, `rx, `tx, `session, `feeding, `lastVerdict, `lastInput, `trace, `kernel, `written,
               `sent, `lastWrite, `tried, `eaten, `fault, `cause, `ending, `bade, `farewell, `received,
               `lastRead
      ensures Core() && Armed() && Rank(state) >= Rank(mode)
      ensures Talking(state) ==> Exhausted()
      ensures mode != DrainProtocol ==> Accounted() && (state == InProtocol ==> AsFed())
      ensures mode == DrainProtocol ==> (fault || ending) && (has.plain && state == InError ==> Masked())
      ensures again ==> budget > 0 && state == mode
      ensures old(rx.Full()) ==> state == InError
      ensures !again && state == mode && Talking(mode) ==> lastRead.Some? && WouldBlock(lastRead.value)
      ensures mode != InProtocol ==> Quiet(old(trace), trace)
      ensures mode == DrainProtocol ==>
                state == InError
                || (state == DrainProtocol && DrainedLike(old(fd), old(cause), old(tx), old(bade)))
      ensures old(received) <= received
      ensures received == old(received) ==>
                OnlyTeardown(old(trace), trace) && written == old(written) && sent == old(sent)
                && state in {mode, CloseTransport, InError}
    {
      hide FedSoFar, FedHalfway, LawfulProtocol, Base, Placed, Covered, Masked, Armed, Accounted, Evidence;
      hide StageOf, Quiet, OnlyTeardown;
      QuietRefl(trace);
      OnlyTeardownRefl(trace);
      if rx.Full() {
        Overrun(mode);
        return false;
      }
      ghost var got, books := received, Books();
      var o, n, bytes := EndpointRead(budget);
      if n > 0 {
        if mode == InProtocol {
          FedFresh(p, has.connect, birth, feeding, books, bytes, TX_CAP);
        }
        again := Digest(mode, o);
      } else {
        assert received == got;
        again := AfterRead(mode, o, old(trace));
      }
    }

    /** There is no room left to read into. */
    method Overrun(mode: State)
      requires Core() && Armed() && state == mode && mode in {InProtocol, CloseProtocol, DrainProtocol} && rx.Full()
      modifies `state, `fd, `trace, `kernel, `fault, `cause
      ensures Core() && Armed() && state == InError && Quiet(old(trace), trace) && OnlyTeardown(old(trace), trace)
      ensures mode != DrainProtocol ==> Accounted()
      ensures fault && (mode == DrainProtocol && has.plain ==> Masked())
    {
      hide FedSoFar, Base, StageOf, Quiet, OnlyTeardown;
      CoreFacts();
      EnterError(Overflow);
    }

    /** New bytes are consumed before the outcome of the read is looked at. */
    method Digest(mode: State, o: Outcome) returns (again: bool)
      requires Core() && Armed() && state == mode && mode in {InProtocol, CloseProtocol, DrainProtocol}
      requires (mode == InProtocol ==> !ending && HalfFed()) && lastRead == Some(o) && (has.plain ==> o != WantWrite)
      modifies `state, `fd, `rx, `tx, `session, `feeding, `lastVerdict, `lastInput, `trace, `kernel, `written,
               `sent, `lastWrite, `tried, `eaten, `fault, `cause, `ending, `bade, `farewell
      ensures Core() && Armed() && Rank(state) >= Rank(mode)
      ensures Talking(state) ==> Exhausted()
      ensures mode != DrainProtocol ==> Accounted() && (state == InProtocol ==> AsFed())
      ensures mode == DrainProtocol ==> (fault || ending) && (has.plain && state == InError ==> Masked())
      ensures again ==> o == Progress && state == mode
      ensures !again && state == mode && Talking(mode) ==> WouldBlock(o)
      ensures mode != InProtocol ==> Quiet(old(trace), trace)
      ensures mode == DrainProtocol ==>
                state == InError
                || (state == DrainProtocol && DrainedLike(old(fd), old(cause), old(tx), old(bade)))
      ensures o == Failed && mode == DrainProtocol ==> state == InError
    {
      hide FedSoFar, FedHalfway, LawfulProtocol, Base, Placed, Armed, StageOf, Quiet, OnlyTeardown;
      var more := Consume(mode);
      if !more {
        return false;
      }
      again := AfterRead(mode, o, old(trace));
    }

    /** What the outcome of a read leads to when the state has not moved on. */
    method AfterRead(mode: State, o: Outcome, ghost since: seq<Call>) returns (again: bool)
      requires Core() && Armed() && state == mode && mode in {InProtocol, CloseProtocol, DrainProtocol}
      requires (mode == InProtocol ==> !ending) && lastRead == Some(o) && (Talking(mode) ==> Exhausted())
      requires has.plain ==> o != WantWrite
      requires mode != InProtocol ==> Quiet(since, trace)
      modifies `state, `fd, `trace, `kernel, `fault, `cause, `ending
      ensures Core() && Armed() && Rank(state) >= Rank(mode)
      ensures Talking(state) ==> Exhausted()
      ensures mode != DrainProtocol ==> Accounted()
      ensures mode == DrainProtocol ==> (fault || ending) && (has.plain && state == InError ==> Masked())
      ensures again <==> o == Progress
      ensures again ==> state == mode
      ensures state == mode && mode == InProtocol ==> trace == old(trace)
      ensures !again && state == mode && Talking(mode) ==> WouldBlock(o)
      ensures state in {mode, CloseTransport, InError}
      ensures o == Failed ==> state == InError
      ensures o == WantRead && fd != -1 ==> Watches(true, tx.contents != [])
      ensures o == WantWrite && fd != -1 ==> Watches(Talking(mode), true)
      ensures o == PeerClosed && mode != DrainProtocol ==> state == CloseTransport
      ensures mode != InProtocol ==> Quiet(since, trace)
      ensures mode == DrainProtocol ==>
                state == InError || (state == DrainProtocol && fd == old(fd) && cause == old(cause))
      ensures OnlyTeardown(old(trace), trace)
    {
      hide FedSoFar, Base, StageOf, Quiet, OnlyTeardown;
      OnlyTeardownRefl(trace);
      CoreFacts();
      ghost var before := trace;
      again := o == Progress;
      match o
      case Progress =>
      case PeerClosed =>
        if mode != DrainProtocol {
          EndOfStream();
        }
      case Failed =>
        EnterError(ReadFailed);
        if mode != InProtocol {
          QuietTrans(since, before, trace);
        }
      case _ =>
        Arm(o, ReadFailed);
    }

    /** The peer has finished: there is nobody left to talk to. */
    method EndOfStream()
      requires Core() && Talking(state) && lastRead == Some(PeerClosed)
      modifies `state, `ending
      ensures Core() && Armed() && state == CloseTransport && ending
    {
      hide FedSoFar, LawfulProtocol, BuffersSound, FarewellLast, OwnsSocket, CallsInOrder, StageOf;
      End();
      EnterCloseTransport();
    }

    // ----- Steps

    /** Some edge is being waited for. */
    ghost predicate Watched()
      reads this
    {
      Watching(true, false) || Watching(false, true)
    }

    /** What every step keeps: it ends where it began or further on, and it has left normal
        operation exactly when something said so. */
    ghost predicate Stepped(before: State)
      reads this
    {
      && Core() && Armed() && state != Uninitialized && (Talking(state) ==> Exhausted())
      && (state == InProtocol ==> AsFed())
      && (state == before || Rank(state) > Rank(before))
      && Accounted()
    }

    /** A pending connect has finished; the system is asked how. */
    method StepInProgress(ev: Event)
      requires Core() && Armed() && state == InProgress
      modifies `state, `fd, `rx, `tx, `session, `feeding, `lastVerdict, `lastInput, `trace, `kernel, `written,
               `sent, `lastWrite, `tried, `eaten, `fault, `cause, `ending, `bade, `farewell, `refused
      ensures Stepped(InProgress)
      ensures state == InProgress <==> !ev.writeable && !ev.error && !ev.close
      ensures refused && !old(refused) ==> state == InError
      ensures !ev.writeable && (ev.error || ev.close) ==> state == InError
    {
      hide FedSoFar, LawfulProtocol, BuffersSound, FarewellLast, OwnsSocket, CallsInOrder, StageOf, Quiet;
      if ev.writeable {
        var connected := SocketConnected();
        if connected {
          ghost var _ := EnterConnected();
        } else {
          EnterError(NoConnection);
        }
      } else if ev.error || ev.close {
        Hangup(ev);
        EnterError(NoConnection);
      }
    }

    /** The system says whether the pending connect succeeded. */
    method SocketConnected() returns (connected: bool)
      requires Core()
      modifies `refused
      ensures Core() && (!connected ==> refused) && (connected ==> refused == old(refused))
    {
      hide FedSoFar, LawfulProtocol, BuffersSound, FarewellLast, OwnsSocket, CallsInOrder, StageOf;
      connected := *;
      refused := refused || !connected;
    }

    ghost method Hangup(ev: Event)
      requires Core() && (ev.error || ev.close)
      modifies `refused
      ensures Core() && refused
    {
      hide FedSoFar, LawfulProtocol, BuffersSound, FarewellLast, OwnsSocket, CallsInOrder, StageOf;
      refused := true;
    }

    /** The transport is set up, or cannot be; the plain one always can. */
    method InitEndpoint() returns (ready: bool)
      requires Base()
      modifies `refused
      ensures Base() && (!ready ==> refused && !has.plain) && (ready ==> refused == old(refused))
    {
      hide FedSoFar, LawfulProtocol, BuffersSound, FarewellLast, OwnsSocket, CallsInOrder, StageOf;
      ready := *;
      ready := ready || has.plain;
      refused := refused || !ready;
    }

    /** A step of the transport's own handshake or shutdown. */
    method EndpointStep() returns (o: Outcome)
      requires Core() && Armed()
      modifies `lastStep, `firstStep
      ensures Core() && Armed() && lastStep == Some(o)
      ensures firstStep == if old(firstStep) == None then Some(o) else old(firstStep)
    {
      hide FedSoFar, LawfulProtocol, BuffersSound, FarewellLast, OwnsSocket, CallsInOrder, StageOf;
      o := *;
      lastStep := Some(o);
      firstStep := if firstStep == None then Some(o) else firstStep;
    }

    /** The socket is connected: set up the transport, and the protocol unless a handshake is due. */
    method EnterConnected() returns (ghost ready: bool)
      requires Base() && state in {Uninitialized, InProgress} && fd != -1
      requires trace == [] && !fault && !ending && !bade && Untouched()
      modifies `state, `fd, `rx, `tx, `session, `feeding, `lastVerdict, `lastInput, `trace, `kernel, `written,
               `sent, `lastWrite, `tried, `eaten, `fault, `cause, `ending, `bade, `farewell, `refused
      ensures Core() && Armed() && Rank(state) >= 2
      ensures Talking(state) ==> Exhausted()
      ensures Accounted() && (state == InProtocol ==> AsFed())
      ensures ready ==> (state == InTransport <==> has.handshake) && refused == old(refused)
      ensures !ready ==> state == InError
    {
      hide FedSoFar, Base, StageOf, Quiet;
      var usable := InitEndpoint();
      ready := usable;
      if !usable {
        EnterError(NoConnection);
        return;
      }
      if has.handshake {
        EnterTransport();
      } else {
        StartProtocol();
      }
    }

    method EnterTransport()
      requires Base() && fd != -1 && trace == [] && !fault && !ending && !bade && Untouched() && has.handshake
      modifies `state
      ensures Core() && Armed() && state == InTransport
    {
      hide FedSoFar, LawfulProtocol, BuffersSound, FarewellLast, OwnsSocket, CallsInOrder, StageOf;
      state := InTransport;
    }

    method StartProtocol()
      requires Base() && fd != -1 && trace == [] && !fault && !ending && !bade && Untouched()
      modifies `state, `fd, `rx, `tx, `session, `feeding, `lastVerdict, `lastInput, `trace, `kernel, `written,
               `sent, `lastWrite, `tried, `eaten, `fault, `cause, `ending, `bade, `farewell
      ensures Core() && Armed() && Rank(state) >= 3
      ensures Talking(state) ==> Exhausted()
      ensures Accounted() && (state == InProtocol ==> AsFed())
      ensures has.connect ==> |trace| > 0 && trace[0] == Connect
    {
      hide FedSoFar, LawfulProtocol, BuffersSound, FarewellLast, CallsInOrder, StageOf, Quiet;
      kernel := kernel.Subscribe(fd, true, false);
      EnterProtocol();
    }

    method StepTransport()
      requires Core() && Armed() && state == InTransport
      modifies `state, `fd, `rx, `tx, `session, `feeding, `lastVerdict, `lastInput, `trace, `kernel, `written,
               `sent, `lastWrite, `tried, `eaten, `fault, `cause, `ending, `bade, `farewell, `lastStep, `firstStep
      ensures Stepped(InTransport)
      ensures state == InTransport ==> Watched()
      ensures lastStep.Some?
      ensures state == InTransport <==> WouldBlock(lastStep.value)
      ensures lastStep.value in {Failed, PeerClosed} ==> state == InError
      ensures firstStep == if old(firstStep) == None then lastStep else old(firstStep)
    {
      hide FedSoFar, Base, Untouched, StageOf, Quiet;
      var o := EndpointStep();
      if o == Progress {
        EnterProtocol();
      } else if o == PeerClosed {
        EnterError(StepFailed);
      } else {
        Arm(o, StepFailed);
      }
    }

    /** A flush on a writeable edge, wherever reading may have led by then. */
    method FlushWriteable()
      requires Stepped(state) && Rank(state) >= 3
      modifies `state, `fd, `tx, `sent, `lastWrite, `tried, `trace, `kernel, `fault, `cause
      ensures Stepped(old(state)) && Quiet(old(trace), trace) && OnlyTeardown(old(trace), trace)
      ensures state in {old(state), CloseTransport, InError}
      ensures Talking(state) && tx.contents != [] ==> tried
    {
      hide FedSoFar, Base, StageOf, Quiet, OnlyTeardown;
      CoreFacts();
      var _ := TransportWrite(true);
    }

    method StepProtocol(ev: Event)
      requires Core() && Armed() && state == InProtocol && !ending && Exhausted() && AsFed()
      modifies `state, `fd, `rx, `tx, `session, `feeding, `lastVerdict, `lastInput, `trace, `kernel, `written,
               `sent, `lastWrite, `tried, `eaten, `fault, `cause, `ending, `bade, `farewell, `received,
               `lastRead
      ensures Stepped(InProtocol)
      ensures ev.readable && state == InProtocol ==> lastRead.Some? && WouldBlock(lastRead.value)
      ensures ev.writeable && Talking(state) && tx.contents != [] ==> tried
      ensures old(received) <= received && (!ev.readable ==> received == old(received))
      ensures received == old(received) ==>
                OnlyTeardown(old(trace), trace) && written == old(written) && (!ev.writeable ==> sent == old(sent))
                && state in {old(state), CloseTransport, InError}
    {
      hide FedSoFar, Base, Placed, Covered, Masked, Armed, StageOf, Quiet, OnlyTeardown;
      OnlyTeardownRefl(trace);
      CoreFacts();
      if ev.readable {
        TransportRead(InProtocol);
      }
      ghost var before := trace;
      if ev.writeable {
        FlushWriteable();
        if received == old(received) {
          OnlyTeardownTrans(old(trace), before, trace);
        }
      }
    }

    method StepCloseProtocol(ev: Event)
      requires Core() && Armed() && state == CloseProtocol && Exhausted()
      modifies `state, `fd, `rx, `tx, `session, `feeding, `lastVerdict, `lastInput, `trace, `kernel, `written,
               `sent, `lastWrite, `tried, `eaten, `fault, `cause, `ending, `bade, `farewell, `received,
               `lastRead
      ensures Stepped(CloseProtocol) && Quiet(old(trace), trace)
      ensures ev.readable && state == CloseProtocol ==> lastRead.Some? && WouldBlock(lastRead.value)
      ensures ev.writeable && Talking(state) && tx.contents != [] ==> tried
      ensures old(received) <= received && (!ev.readable ==> received == old(received))
      ensures received == old(received) ==>
                OnlyTeardown(old(trace), trace) && written == old(written) && (!ev.writeable ==> sent == old(sent))
                && state in {old(state), CloseTransport, InError}
    {
      hide FedSoFar, Base, Placed, Covered, Masked, Armed, StageOf, Quiet, OnlyTeardown;
      OnlyTeardownRefl(trace);
      CoreFacts();
      QuietRefl(trace);
      if ev.readable {
        TransportRead(CloseProtocol);
      }
      ghost var before := trace;
      if ev.writeable {
        FlushWriteable();
        QuietTrans(old(trace), before, trace);
        if received == old(received) {
          OnlyTeardownTrans(old(trace), before, trace);
        }
      }
    }

    /** The protocol is finished: incoming bytes are dropped, outgoing ones flushed. */
    method StepDrainProtocol(ev: Option<Event>)
      requires Core() && Armed() && state == DrainProtocol
      modifies `state, `fd, `rx, `tx, `session, `feeding, `lastVerdict, `lastInput, `trace, `kernel, `written,
               `sent, `lastWrite, `tried, `eaten, `fault, `cause, `ending, `bade, `farewell, `received,
               `lastRead
      ensures Stepped(DrainProtocol) && Quiet(old(trace), trace)
      ensures state == DrainProtocol ==>
                fd != -1 && tx.contents != [] && Watching(false, true) && WriteRefused() && tried
                && (has.plain ==> Watches(false, true))
      ensures ev.Some? && ev.value.readable ==> rx == Empty(RX_CAP)
      ensures state == CloseTransport && fd != -1 && (has.plain || !fault) ==> tx.contents == [] && sent == written
      ensures !old(fault) && fault && Masked() ==> state == CloseTransport && fd == -1
      ensures ev.None? || !ev.value.readable ==> received == old(received)
      ensures old(received) <= received
    {
      hide FedSoFar, Base, StageOf, Quiet, Stepped, Overwritten;
      QuietRefl(trace);
      CoreFacts();
      if ev.Some? && ev.value.readable {
        DropIncoming();
      }
      ghost var before := trace;
      FlushDrain();
      QuietTrans(old(trace), before, trace);
    }

    /** What is left is flushed, and then only the transport is left to close; so it is without a
        socket. */
    method FlushDrain()
      requires Core() && (state == DrainProtocol || state == InError) && (fault || ending)
      requires has.plain && fault ==> Masked()
      modifies `state, `fd, `tx, `sent, `lastWrite, `tried, `trace, `kernel, `fault, `cause
      ensures Stepped(DrainProtocol) && Quiet(old(trace), trace)
      ensures state == DrainProtocol ==>
                fd != -1 && tx.contents != [] && Watching(false, true) && WriteRefused() && tried
                && (has.plain ==> Watches(false, true))
      ensures state == CloseTransport && fd != -1 && (has.plain || !fault) ==> tx.contents == [] && sent == written
      ensures old(fd) == -1 ==> state == CloseTransport && fd == -1 && cause == old(cause)
      ensures old(fd) != -1 && !old(fault) ==> !Masked()
    {
      hide FedSoFar, Base, StageOf, Quiet, OnlyTeardown;
      CoreFacts();
      var flushed := TransportWrite(false);
      if flushed {
        EnterCloseTransport();
      }
      CoreFacts();
    }

    method DropIncoming()
      requires Core() && Armed() && state == DrainProtocol
      modifies `state, `fd, `rx, `tx, `session, `feeding, `lastVerdict, `lastInput, `trace, `kernel, `written,
               `sent, `lastWrite, `tried, `eaten, `fault, `cause, `ending, `bade, `farewell, `received,
               `lastRead
      ensures Core() && (state == DrainProtocol || state == InError) && Quiet(old(trace), trace)
      ensures (fault || ending) && rx == Empty(RX_CAP)
      ensures has.plain && state == InError ==> Masked()
      ensures state == DrainProtocol ==> cause == old(cause) && fault == old(fault)
      ensures state == InError ==> fd == -1
      ensures old(received) <= received
    {
      hide FedSoFar, LawfulProtocol, FarewellLast, OwnsSocket, CallsInOrder, StageOf, Quiet;
      TransportRead(DrainProtocol);
      rx := Empty(RX_CAP);
    }

    method StepCloseTransport()
      requires Core() && Armed() && state == CloseTransport
      modifies `state, `fd, `trace, `kernel, `fault, `cause, `lastStep, `firstStep
      ensures Stepped(CloseTransport) && Quiet(old(trace), trace)
      ensures !has.closing ==> state == Closed
      ensures has.closing ==> !has.plain && lastStep.Some?
      ensures has.closing ==> (state == Closed <==> lastStep.value == Progress)
      ensures has.closing ==> (state == CloseTransport <==> WouldBlock(lastStep.value))
      ensures state == CloseTransport && fd != -1 ==> Watched()
      ensures has.closing && old(firstStep) == None ==> firstStep == lastStep
      ensures old(firstStep) != None ==> firstStep == old(firstStep)
      ensures OnlyTeardown(old(trace), trace)
    {
      hide FedSoFar, Base, StageOf, Quiet, OnlyTeardown;
      OnlyTeardownRefl(trace);
      CoreFacts();
      QuietRefl(trace);
      if has.closing {
        var o := EndpointStep();
        match o
        case Progress => EnterClosed();
        case Failed => EnterError(StepFailed);
        case PeerClosed => EnterError(StepFailed);
        case _ => Arm(o, StepFailed);
      } else {
        EnterClosed();
      }
    }

    // ----- Runs of steps, and the calls from outside

    lemma RestsWaiting()
      requires Core() && Armed() && Accounted() && (Talking(state) ==> Exhausted()) && (state == InProtocol ==> AsFed())
      requires state in {Closed, InError, InProgress, InProtocol, CloseProtocol}
      ensures Resting()
    {
      hide FedSoFar, Base;
    }

    lemma RestsBlocked()
      requires Core() && Armed() && Accounted() && state in {InTransport, DrainProtocol, CloseTransport}
      requires (fd != -1 ==> Watched()) && (state == CloseTransport ==> !has.plain && (has.closing || fd != -1))
      requires state == DrainProtocol ==>
                 fd != -1 && tx.contents != [] && WriteRefused()
                 && if has.plain then Watches(false, true) else Watching(false, true)
      ensures Resting()
    {
      hide FedSoFar, LawfulProtocol, BuffersSound, FarewellLast, OwnsSocket, CallsInOrder, StageOf;
    }

    /** The edge was used up: reading went on until it would block, and so did writing. */
    ghost predicate Drained(ev: Event)
      reads this
    {
      && (ev.readable ==> lastRead.Some? && WouldBlock(lastRead.value))
      && (ev.writeable && tx.contents != [] ==> tried && WriteRefused())
    }

    /** What became of a state that waits for the network rather than for the peer: a pending connect
        is over exactly if the event says so; a handshake or shutdown of the transport goes on exactly
        while its step would block, and fails if that fails; a drain drops what comes in and rests only
        if the transport refused a write. */
    ghost predicate Moved(before: State, ev: Option<Event>)
      reads this
    {
      && (before == InProgress && ev.Some? ==>
            (state == InProgress <==> !ev.value.writeable && !ev.value.error && !ev.value.close)
            && (!ev.value.writeable && (ev.value.error || ev.value.close) ==> state == InError))
      && (before == InTransport ==>
            firstStep.Some? && (state == InTransport <==> WouldBlock(firstStep.value))
            && (firstStep.value in {Failed, PeerClosed} ==> state == InError))
      && (before == DrainProtocol ==>
            (state == DrainProtocol ==> tried && WriteRefused())
            && (ev.Some? && ev.value.readable ==> rx == Empty(RX_CAP)))
      && (before == CloseTransport ==>
            if has.closing
            then firstStep.Some? && (state == CloseTransport <==> WouldBlock(firstStep.value))
                 && (state == Closed <==> firstStep.value == Progress)
            else state == Closed)
    }

    /** A state that does not wait for the peer rests only because the transport would not go on. */
    ghost predicate Stuck()
      reads this
    {
      && (state == InTransport || state == CloseTransport ==> lastStep.Some? && WouldBlock(lastStep.value))
      && (state == DrainProtocol ==> tried && WriteRefused())
    }

    /** One step in the current state. */
    method Step(ev: Option<Event>)
      requires Stepped(state) && !(state in {Closed, InError})
      requires ev.None? ==> state in {InTransport, DrainProtocol, CloseTransport}
      modifies `state, `fd, `rx, `tx, `session, `feeding, `lastVerdict, `lastInput, `trace, `kernel, `written,
               `sent, `lastWrite, `tried, `eaten, `fault, `cause, `ending, `bade, `farewell, `received,
               `lastRead, `lastStep, `firstStep, `refused, `steps
      ensures Stepped(old(state))
      ensures state == old(state) ==> Resting() && Stuck()
      ensures old(Ending(state)) ==> Quiet(old(trace), trace)
      ensures ev.Some? && state == old(state) && Talking(state) ==> Drained(ev.value)
      ensures old(firstStep) == None ==> Moved(old(state), ev)
      ensures old(firstStep) != None ==> firstStep == old(firstStep)
      ensures old(state) == CloseTransport ==> rx == old(rx)
      ensures old(state) != InProgress ==> refused == old(refused)
      ensures old(state) == InProgress && refused && !old(refused) ==> state == InError
      ensures ev.None? || !ev.value.readable ==> received == old(received)
      ensures Talking(old(state)) && received == old(received) ==>
                OnlyTeardown(old(trace), trace) && written == old(written)
                && (ev.Some? && !ev.value.writeable ==> sent == old(sent))
      ensures Talking(old(state)) && received == old(received) ==> state == old(state) || Rank(state) >= 6
      ensures old(state) == CloseTransport ==>
                OnlyTeardown(old(trace), trace) && received == old(received) && written == old(written)
                && sent == old(sent)
      ensures old(received) <= received
      ensures steps == old(steps) + 1
    {
      hide FedSoFar, Base, Placed, Covered, Armed, Resting, Masked, Accounted, Exhausted, StageOf, Quiet, OnlyTeardown;
      Count();
      match state {
        case InProgress =>
          StepInProgress(ev.value);
          if state == InProgress {
            RestsWaiting();
          }
        case InTransport =>
          StepTransport();
          if state == InTransport {
            RestsBlocked();
          }
        case InProtocol | CloseProtocol =>
          StepTalking(ev.value);
        case DrainProtocol =>
          StepDrainProtocol(ev);
          if state == DrainProtocol {
            RestsBlocked();
          }
        case CloseTransport =>
          StepCloseTransport();
          if state == CloseTransport {
            RestsBlocked();
          }
      }
    }

    ghost method Count()
      requires Stepped(state)
      modifies `steps
      ensures Stepped(state) && steps == old(steps) + 1
    {
      hide FedSoFar, LawfulProtocol, BuffersSound, FarewellLast, OwnsSocket, CallsInOrder, StageOf;
      steps := steps + 1;
    }

    /** A step while talking; without new bytes no callback is made and nothing is written, and
        without a writeable edge nothing is sent either. */
    method StepTalking(ev: Event)
      requires Stepped(state) && Talking(state)
      modifies `state, `fd, `rx, `tx, `session, `feeding, `lastVerdict, `lastInput, `trace, `kernel, `written,
               `sent, `lastWrite, `tried, `eaten, `fault, `cause, `ending, `bade, `farewell, `received,
               `lastRead
      ensures Stepped(old(state)) && (old(Ending(state)) ==> Quiet(old(trace), trace))
      ensures state == old(state) ==> Resting() && Drained(ev)
      ensures old(received) <= received && (!ev.readable ==> received == old(received))
      ensures received == old(received) ==>
                OnlyTeardown(old(trace), trace) && written == old(written) && (!ev.writeable ==> sent == old(sent))
                && state in {old(state), CloseTransport, InError}
    {
      hide FedSoFar, Base, StageOf, Quiet, OnlyTeardown;
      if state == InProtocol {
        StepProtocol(ev);
      } else {
        StepCloseProtocol(ev);
      }
    }

    /** Steps until the state stays or waits for an event. */
    method Steps(ev: Option<Event>)
      requires Stepped(state) && firstStep == None
      modifies `state, `fd, `rx, `tx, `session, `feeding, `lastVerdict, `lastInput, `trace, `kernel, `written,
               `sent, `lastWrite, `tried, `eaten, `fault, `cause, `ending, `bade, `farewell, `received,
               `lastRead, `lastStep, `firstStep, `refused, `steps
      ensures Stuck() && Resting() && Rank(state) >= old(Rank(state)) && state != Uninitialized
      ensures old(Done()) ==> SameBut(old(state), old(fd), old(cause), old(trace)) && kernel == old(kernel)
      ensures old(Ending(state)) ==> Quiet(old(trace), trace)
      ensures ev.Some? && Talking(state) ==> Drained(ev.value)
      ensures steps + old(Rank(state)) <= old(steps) + 8
      ensures Moved(old(state), ev)
      ensures old(state) == InProgress && refused && !old(refused) ==> state == InError
      ensures ev.None? || !ev.value.readable ==> received == old(received)
      ensures Talking(old(state)) && received == old(received) ==>
                OnlyTeardown(old(trace), trace) && written == old(written)
                && (ev.Some? && !ev.value.writeable ==> sent == old(sent))
    {
      hide FedSoFar, Base, Placed, StageOf, Quiet, Armed, Watching, Resting, Drained, Accounted, OnlyTeardown;
      OnlyTeardownRefl(trace);
      QuietRefl(trace);
      CoreFacts();
      if state in {Closed, InError} || (ev.None? && state in {InProgress, InProtocol, CloseProtocol}) {
        RestsWaiting();
        return;
      }
      var before := state;
      Step(ev);
      if state != before {
        ghost var trace' := trace;
        StepOn(ev);
        if old(Ending(state)) {
          QuietTrans(old(trace), trace', trace);
        }
        if Talking(old(state)) && received == old(received) {
          OnlyTeardownTrans(old(trace), trace', trace);
        }
      }
    }

    /** The steps after the first. */
    method StepOn(ev: Option<Event>)
      requires Stepped(state)
      modifies `state, `fd, `rx, `tx, `session, `feeding, `lastVerdict, `lastInput, `trace, `kernel, `written,
               `sent, `lastWrite, `tried, `eaten, `fault, `cause, `ending, `bade, `farewell, `received,
               `lastRead, `lastStep, `firstStep, `refused, `steps
      ensures Stuck() && Resting() && Rank(state) >= old(Rank(state)) && state != Uninitialized
      ensures old(Done()) ==> SameBut(old(state), old(fd), old(cause), old(trace)) && kernel == old(kernel)
      ensures old(Ending(state)) ==> Quiet(old(trace), trace)
      ensures ev.Some? && Talking(state) ==> Drained(ev.value)
      ensures steps + old(Rank(state)) <= old(steps) + 8
      ensures old(firstStep) != None ==> firstStep == old(firstStep)
      ensures old(Rank(state)) >= 6 ==> rx == old(rx)
      ensures old(state) != InProgress ==> refused == old(refused)
      ensures ev.None? || !ev.value.readable ==> received == old(received)
      ensures old(Rank(state)) >= 6 ==>
                OnlyTeardown(old(trace), trace) && received == old(received) && written == old(written)
                && sent == old(sent)
      ensures old(received) <= received
    {
      hide FedSoFar, LawfulProtocol, Base, Placed, StageOf, Quiet, Armed, Watching, Moved, OnlyTeardown;
      CoreFacts();
      OnlyTeardownRefl(trace);
      QuietRefl(trace);
      while true
        invariant Stepped(old(state))
        invariant steps + old(Rank(state)) <= old(steps) + Rank(state)
        invariant old(Ending(state)) ==> Quiet(old(trace), trace)
        invariant old(Done()) ==> SameBut(old(state), old(fd), old(cause), old(trace)) && kernel == old(kernel)
        invariant old(firstStep) != None ==> firstStep == old(firstStep)
        invariant old(Rank(state)) >= 6 ==> rx == old(rx)
        invariant old(state) != InProgress ==> refused == old(refused)
        invariant ev.None? || !ev.value.readable ==> received == old(received)
        invariant old(Rank(state)) >= 6 ==>
                    OnlyTeardown(old(trace), trace) && received == old(received) && written == old(written)
                    && sent == old(sent)
        invariant old(received) <= received
        decreases 8 - Rank(state)
      {
        if state in {Closed, InError} || (ev.None? && state in {InProgress, InProtocol, CloseProtocol}) {
          RestsWaiting();
          return;
        }
        var before := state;
        ghost var trace' := trace;
        Step(ev);
        if old(Ending(state)) {
          QuietTrans(old(trace), trace', trace);
        }
        if old(Rank(state)) >= 6 {
          OnlyTeardownTrans(old(trace), trace', trace);
        }
        if state == before {
          return;
        }
      }
    }

    /** An edge event. */
    method HandleEvent(ev: Event)
      requires Resting() && state != Uninitialized
      modifies `state, `fd, `rx, `tx, `session, `feeding, `lastVerdict, `lastInput, `trace, `kernel, `written,
               `sent, `lastWrite, `tried, `eaten, `fault, `cause, `ending, `bade, `farewell, `received,
               `lastRead, `lastStep, `firstStep, `refused, `steps, `log
      ensures Stuck() && Resting() && state != Uninitialized && Rank(state) >= old(Rank(state))
      ensures old(Done()) ==> SameBut(old(state), old(fd), old(cause), old(trace)) && kernel == old(kernel)
      ensures old(Ending(state)) ==> Quiet(old(trace), trace)
      ensures Talking(state) ==> Drained(ev)
      ensures Moved(old(state), Some(ev))
      ensures old(state) == InProgress && refused && !old(refused) ==> state == InError
      ensures has.plain && fault && !old(fault) ==> (state == Closed <==> Masked())
      ensures old(Ending(state) && Parted()) ==> Parted()
      ensures !ev.readable ==> received == old(received)
      ensures Talking(old(state)) && received == old(received) ==>
                OnlyTeardown(old(trace), trace) && written == old(written) && (!ev.writeable ==> sent == old(sent))
      ensures steps <= old(steps) + 8
      ensures log == old(log) + [Happened(ev)]
    {
      hide FedSoFar, Base, Placed, Resting, Stepped, Moved, StageOf, Quiet, Drained, OnlyTeardown;
      StillFaulty();
      Note(Happened(ev));
      NewCall();
      Steps(Some(ev));
      StillFaulty();
      if old(bade && Ending(state)) {
        StillBade(old(trace));
      }
    }

    /** What the environment says from here on is news. */
    ghost method NewCall()
      requires Resting()
      modifies `lastRead, `lastStep, `firstStep, `tried
      ensures Resting() && lastRead == None && lastStep == None && firstStep == None && !tried
      ensures state != Uninitialized ==> Stepped(state)
    {
      hide Resting, Stepped;
      NewEdge();
      NewStep();
      RestingIsStepped();
    }

    ghost method Note(request: Request)
      requires Resting()
      modifies `log
      ensures Resting() && log == old(log) + [request]
    {
      hide FedSoFar, LawfulProtocol, BuffersSound, FarewellLast, OwnsSocket, CallsInOrder, StageOf;
      log := log + [request];
    }

    ghost method NewEdge()
      requires Resting()
      modifies `lastRead, `tried
      ensures Resting() && lastRead == None && !tried
    {
      hide FedSoFar, LawfulProtocol, BuffersSound, FarewellLast, OwnsSocket, CallsInOrder, StageOf;
      lastRead, tried := None, false;
    }

    ghost method NewStep()
      requires Resting()
      modifies `lastStep, `firstStep
      ensures Resting() && lastStep == None && firstStep == None
    {
      hide FedSoFar, LawfulProtocol, BuffersSound, FarewellLast, OwnsSocket, CallsInOrder, StageOf;
      lastStep, firstStep := None, None;
    }

    lemma RestingIsStepped()
      requires Resting()
      ensures state != Uninitialized ==> Stepped(state)
    {
      hide FedSoFar, Base, Placed, Armed;
    }

    /** A fresh start: both buffers empty, a new socket, and on as far as it goes without events. */
    method EnterUninitialized()
      requires Base() && fd == -1
      modifies this
      ensures Stuck() && Resting() && state != Uninitialized && dials == old(dials) + 1
      ensures attached == old(attached) && birth == old(session)
      ensures log == old(log)
    {
      hide FedSoFar, LawfulProtocol, BuffersSound, FarewellLast, OwnsSocket, CallsInOrder, StageOf, Placed,
           Resting, Core;
      ForgetNews();
      Blank();
      var _, _ := Redial();
    }

    method Blank()
      requires LawfulProtocol(p) && (has.plain ==> !has.handshake && !has.closing)
      requires OwnsSocket(kernel, fd) && fd == -1 && session == birth
      modifies `state, `rx, `tx, `dials, `trace, `written, `sent, `received, `eaten, `fault, `cause,
               `ending, `bade
      ensures Core() && state == Uninitialized && dials == old(dials) + 1
    {
      hide FedSoFar, LawfulProtocol, BuffersSound, FarewellLast, OwnsSocket, CallsInOrder, StageOf, Placed;
      state := Uninitialized;
      rx, tx := Empty(RX_CAP), Empty(TX_CAP);
      dials := dials + 1;
      Forget();
    }

    /** Dials and goes on: with no socket to an error, with a pending connect to the wait for it,
        and else straight on. */
    method Redial() returns (found: bool, err: int)
      requires Core() && state == Uninitialized && fd == -1 && firstStep == None
      modifies `state, `fd, `rx, `tx, `session, `feeding, `lastVerdict, `lastInput, `trace, `kernel, `written,
               `sent, `lastWrite, `tried, `eaten, `fault, `cause, `ending, `bade, `farewell, `received,
               `lastRead, `lastStep, `firstStep, `refused, `steps
      ensures Stuck() && Resting() && state != Uninitialized
      ensures !found ==> state == InError
      ensures state == InProgress <==> found && err == EINPROGRESS
    {
      hide FedSoFar, Base, Armed, Resting, StageOf, Quiet;
      err := Socket();
      found := fd != -1;
      if fd == -1 || err == EINPROGRESS {
        AwaitConnect();
      } else {
        ghost var _ := EnterConnected();
        Steps(None);
      }
    }

    /** The records of the last dial are closed. */
    ghost method Forget()
      requires LawfulProtocol(p) && (has.plain ==> !has.handshake && !has.closing)
      requires OwnsSocket(kernel, fd) && fd == -1 && state == Uninitialized && session == birth
      requires rx == Empty(RX_CAP) && tx == Empty(TX_CAP)
      modifies `trace, `written, `sent, `received, `eaten, `fault, `cause, `ending, `bade
      ensures Core() && trace == []
    {
      hide FedSoFar, LawfulProtocol, OwnsSocket, FarewellLast, StageOf, BuffersSound, CallsInOrder, Base, Placed;
      trace, written, sent, received, eaten := [], [], [], [], [];
      fault, cause, ending, bade := false, None, false, false;
      Unwritten();
    }

    /** An empty record is a sound one. */
    lemma Unwritten()
      requires LawfulProtocol(p) && (has.plain ==> !has.handshake && !has.closing)
      requires OwnsSocket(kernel, fd) && fd == -1 && state == Uninitialized && session == birth
      requires rx == Empty(RX_CAP) && tx == Empty(TX_CAP)
      requires trace == [] && written == sent == received == eaten == []
      requires !fault && cause == None && !ending && !bade
      ensures Core()
    {
      hide FedSoFar, LawfulProtocol, OwnsSocket, FarewellLast, StageOf, BuffersSound, CallsInOrder;
      Unspoken(p, has.connect, written, farewell);
    }

    ghost method ForgetNews()
      modifies `birth, `refused, `asked, `lastRead, `lastWrite, `lastStep, `firstStep, `lastVerdict, `tried
      ensures birth == session && !refused && !asked
      ensures lastRead == lastWrite == lastStep == firstStep == None && lastVerdict == None && !tried
    {
      birth, refused, asked, tried := session, false, false, false;
      lastRead, lastWrite, lastStep, firstStep, lastVerdict := None, None, None, None, None;
    }

    /** Dialing failed, or its outcome will be told by the first writeable edge. */
    method AwaitConnect()
      requires Core() && state == Uninitialized && (fd == -1 ==> refused)
      modifies `state, `fault, `cause, `kernel
      ensures Resting() && state == if fd == -1 then InError else InProgress
    {
      hide FedSoFar, LawfulProtocol, BuffersSound, FarewellLast, CallsInOrder, StageOf;
      if fd == -1 {
        Fail(NoConnection);
        state := InError;
      } else {
        state := InProgress;
        kernel := kernel.Subscribe(fd, false, true);
      }
    }

    /** Dials addresses the resolver and the system answer for in any way they like. */
    method Socket() returns (err: int)
      requires Core() && state == Uninitialized && fd == -1
      modifies `fd, `kernel, `refused
      ensures Core() && fd >= -1 && (fd == -1 ==> refused)
    {
      hide FedSoFar, LawfulProtocol, BuffersSound, FarewellLast;
      var resolved: bool := *;
      var attempts: seq<Attempt> := *;
      ghost var k;
      fd, err, k := Dial(resolved, attempts, kernel);
      kernel := k;
      refused := refused || fd == -1;
    }

    method Attach()
      requires Resting() && (!attached ==> fd == -1)
      modifies this
      ensures Resting() && attached
      ensures old(attached) ==> state == old(state) && dials == old(dials) && trace == old(trace)
      ensures !old(attached) ==>
                state != Uninitialized && dials == old(dials) + 1 && birth == old(session) && Stuck()
      ensures log == old(log) + [Attaching]
    {
      hide FedSoFar, LawfulProtocol, BuffersSound, FarewellLast, OwnsSocket, CallsInOrder, StageOf, Quiet;
      Note(Attaching);
      if attached {
        return;
      }
      attached := true;
      EnterUninitialized();
    }

    /** The one way to attach that `Attach` leaves out: a connection that was stopped and restarted
        before it was ever attached has a socket already. Dialing again forgets that socket, which
        stays open for good. */
    method DialOverSocket(resolved: bool, attempts: seq<Attempt>) returns (err: int)
      requires Resting() && !attached && fd != -1
      requires forall i :: 0 <= i < |attempts| ==> attempts[i].fd != fd  // the number is in use
      modifies `attached, `state, `rx, `tx, `dials, `fd, `kernel
      ensures attached && dials == old(dials) + 1 && fd != old(fd) && old(fd) in kernel.open
      ensures !OwnsSocket(kernel, fd) && (fd == -1 || fd in kernel.open)
      ensures state == Uninitialized && rx == Empty(RX_CAP) && tx == Empty(TX_CAP)
    {
      hide FedSoFar, LawfulProtocol, BuffersSound, FarewellLast, CallsInOrder, StageOf;
      attached := true;
      state := Uninitialized;
      rx, tx := Empty(RX_CAP), Empty(TX_CAP);
      dials := dials + 1;
      ghost var k;
      fd, err, k := Dial(resolved, attempts, kernel);
      kernel := k;
    }

    /** Only a finished connection restarts. */
    method Restart()
      requires Resting()
      modifies this
      ensures Resting() && attached == old(attached)
      ensures !old(Done()) ==> state == old(state) && dials == old(dials) && trace == old(trace)
      ensures old(Done()) ==>
                state != Uninitialized && dials == old(dials) + 1 && birth == p.create(old(dials)) && Stuck()
      ensures log == old(log) + [Restarting]
    {
      hide FedSoFar, Base, Resting, Stuck, StageOf, Quiet;
      StillFaulty();
      Note(Restarting);
      if state != Closed && state != InError {
        return;
      }
      StillFaulty();
      Renew();
    }

    method Renew()
      requires Base()
      modifies this
      ensures Stuck() && Resting() && attached == old(attached) && log == old(log)
      ensures state != Uninitialized && dials == old(dials) + 1 && birth == p.create(old(dials))
    {
      hide FedSoFar, LawfulProtocol, BuffersSound, FarewellLast, OwnsSocket, CallsInOrder, StageOf, Quiet;
      Teardown();
      session := p.create(dials);
      EnterUninitialized();
    }

    /** Graceful shutdown from outside. */
    method Stop()
      requires Resting()
      modifies `asked, `state, `fd, `rx, `tx, `session, `feeding, `lastVerdict, `lastInput, `trace, `kernel,
               `written, `sent, `lastWrite, `tried, `eaten, `fault, `cause, `ending, `bade, `farewell,
               `received, `lastRead, `lastStep, `firstStep, `refused, `steps, `log
      ensures Resting() && Ending(state) && Quiet(old(trace), trace)
      ensures old(state) == InProtocol && has.shutdown ==> AskedToShut(old(trace), trace)
      ensures old(state) == InProtocol && has.shutdown && Prompt(p) ==> Parted()
      ensures old(Ending(state) && Parted()) ==> Parted()
      ensures old(state) in {Uninitialized, InProgress} ==> state == Closed && !fault
      ensures old(state) == InTransport || (old(state) == InProtocol && !has.shutdown) ==>
                state in {CloseTransport, Closed, InError} && (!has.closing ==> state == Closed)
      ensures Stuck()
      ensures old(Done()) ==> SameBut(old(state), old(fd), old(cause), old(trace)) && kernel == old(kernel)
      ensures received == old(received)
      ensures log == old(log) + [Stopping]
    {
      hide FedSoFar, Base, Placed, Resting, Armed, Stuck, StageOf, Quiet, AskedToShut, OnlyTeardown;
      StillFaulty();
      Ask();
      StopNow();
      StillFaulty();
      if old(bade) {
        StillBade(old(trace));
      }
    }

    method StopNow()
      requires Resting() && asked && firstStep == None
      modifies `state, `fd, `rx, `tx, `session, `feeding, `lastVerdict, `lastInput, `trace, `kernel,
               `written, `sent, `lastWrite, `tried, `eaten, `fault, `cause, `ending, `bade, `farewell,
               `received, `lastRead, `lastStep, `firstStep, `refused, `steps
      ensures Resting() && Ending(state) && Quiet(old(trace), trace) && Stuck() && received == old(received)
      ensures old(state) == InProtocol && has.shutdown ==> AskedToShut(old(trace), trace)
      ensures old(state) == InProtocol && has.shutdown && Prompt(p) ==> Parted()
      ensures old(state) in {Uninitialized, InProgress} ==> state == Closed && !fault
      ensures old(state) == InTransport || (old(state) == InProtocol && !has.shutdown) ==>
                state in {CloseTransport, Closed, InError} && (!has.closing ==> state == Closed)
      ensures old(Done()) ==> SameBut(old(state), old(fd), old(cause), old(trace)) && kernel == old(kernel)
    {
      hide FedSoFar, Base, Placed, Resting, Armed, Stuck, StageOf, Quiet, AskedToShut, OnlyTeardown;
      BeginStop();
      CoreFacts();
      ghost var before := trace;
      ghost var said := bade;
      Steps(None);
      QuietTrans(old(trace), before, trace);
      if AskedToShut(old(trace), before) {
        AskedBefore(old(trace), before, trace);
      }
      StillFaulty();
      if said {
        StillBade(before);
      }
    }

    ghost method Ask()
      requires Resting()
      modifies `asked, `log, `lastRead, `lastStep, `firstStep, `tried
      ensures Resting() && asked && firstStep == None && !tried && log == old(log) + [Stopping]
    {
      hide FedSoFar, LawfulProtocol, BuffersSound, FarewellLast, OwnsSocket, CallsInOrder, StageOf, Stepped;
      NewCall();
      Note(Stopping);
      asked := true;
    }

    /** A farewell is not taken back. */
    lemma StillBade(before: seq<Call>)
      requires Base() && Shutdown(Close) in before && Quiet(before, trace)
      ensures bade
    {
      hide FedSoFar, LawfulProtocol, BuffersSound, FarewellLast, OwnsSocket, CallsInOrder, StageOf;
    }

    lemma StillFaulty()
      requires Resting()
      ensures Base() && (state == InError ==> fault) && (bade ==> Shutdown(Close) in trace)
      ensures has.plain && fault ==> (state == Closed <==> Masked())
    {
      hide FedSoFar, LawfulProtocol, BuffersSound, FarewellLast, OwnsSocket, CallsInOrder, StageOf;
    }

    method BeginStop()
      requires Resting() && asked
      modifies `state, `fd, `rx, `tx, `session, `lastVerdict, `lastInput, `trace, `kernel, `written,
               `sent, `lastWrite, `tried, `eaten, `fault, `cause, `ending, `bade, `farewell
      ensures Stepped(state) && Ending(state) && Quiet(old(trace), trace)
      ensures bade ==> Shutdown(Close) in trace
      ensures old(state) == InProtocol && has.shutdown && Prompt(p) ==> Parted()
      ensures old(state) == InProtocol && has.shutdown ==> AskedToShut(old(trace), trace)
      ensures old(state) in {Uninitialized, InProgress} ==> state == Closed && !fault
      ensures old(state) == InTransport || (old(state) == InProtocol && !has.shutdown) ==> state == CloseTransport
      ensures old(Ending(state)) ==> state == old(state) && trace == old(trace) && written == old(written)
      ensures old(Done()) ==> SameBut(old(state), old(fd), old(cause), old(trace)) && kernel == old(kernel)
    {
      hide FedSoFar, Base, StageOf, Quiet, AskedToShut;
      StillFaulty();
      QuietRefl(trace);
      CoreFacts();
      match state {
        case Uninitialized | InProgress | InTransport =>
          StopEarly();
        case InProtocol =>
          StopTalking();
        case _ =>
      }
      CoreFacts();
    }

    /** Normal operation is over; the protocol is asked to shut down if it can be. */
    method StopTalking()
      requires Core() && asked && state == InProtocol
      modifies `state, `fd, `rx, `tx, `session, `lastVerdict, `lastInput, `trace, `kernel, `written,
               `sent, `lastWrite, `tried, `eaten, `fault, `cause, `ending, `bade, `farewell
      ensures Core() && Armed() && Quiet(old(trace), trace) && ending
      ensures Ending(state) && (fault ==> cause.value.at == CloseProtocol) && (bade ==> Shutdown(Close) in trace)
      ensures Prompt(p) && has.shutdown ==> bade || state == InError
      ensures if has.shutdown then AskedToShut(old(trace), trace) else state == CloseTransport
      ensures state == CloseProtocol ==> Exhausted()
    {
      hide FedSoFar, LawfulProtocol, BuffersSound, FarewellLast, OwnsSocket, CallsInOrder, StageOf, Quiet;
      End();
      EnterCloseProtocol();
    }

    /** Before normal operation there is no protocol to shut down. */
    method StopEarly()
      requires Core() && asked && state in {Uninitialized, InProgress, InTransport}
      modifies `state, `fd, `trace, `kernel, `ending
      ensures Core() && Armed() && ending && Quiet(old(trace), trace)
      ensures state == if old(state) == InTransport then CloseTransport else Closed
    {
      hide FedSoFar, LawfulProtocol, BuffersSound, FarewellLast, OwnsSocket, CallsInOrder, StageOf, Quiet;
      QuietRefl(trace);
      End();
      if state == InTransport {
        EnterCloseTransport();
      } else {
        EnterClosed();
      }
    }

    /** A protocol heartbeat, in normal operation only. */
    method Heartbeat()
      requires Resting()
      modifies `state, `fd, `rx, `tx, `session, `lastVerdict, `lastInput, `trace, `kernel, `written,
               `sent, `lastWrite, `tried, `eaten, `fault, `cause, `bade, `farewell, `log
      ensures Resting() && Rank(state) >= old(Rank(state))
      ensures old(state) != InProtocol || !has.heartbeat ==>
                state == old(state) && trace == old(trace) && kernel == old(kernel) && (old(Parted()) ==> Parted())
      ensures old(state) == InProtocol && has.heartbeat ==>
                var r := p.heartbeat(old(session), [], old(tx.cap) - old(tx.wpos));
                old(trace) + [Beat] <= trace && written == old(written) + r.output && session == r.session
      ensures log == old(log) + [Beating]
    {
      hide FedSoFar, Base, Resting, StageOf, Quiet;
      Note(Beating);
      if has.heartbeat && state == InProtocol {
        BeatNow();
      }
    }

    method BeatNow()
      requires Resting() && state == InProtocol
      modifies `state, `fd, `rx, `tx, `session, `lastVerdict, `lastInput, `trace, `kernel, `written,
               `sent, `lastWrite, `tried, `eaten, `fault, `cause, `bade, `farewell
      ensures Resting() && Rank(state) >= 3
      ensures var r := p.heartbeat(old(session), [], old(tx.cap) - old(tx.wpos));
              old(trace) + [Beat] <= trace && written == old(written) + r.output && session == r.session
    {
      hide FedSoFar, Base, Placed, Covered, Resting, Armed, Masked, StageOf, Quiet;
      RestingTalks();
      CallHeartbeat();
      ghost var before := trace;
      Flush();
      QuietPrefix(before, trace);
      if state == CloseTransport {
        RestsBlocked();
      } else {
        RestsWaiting();
      }
    }

    lemma RestingTalks()
      requires Resting() && state == InProtocol
      ensures Core() && Exhausted() && AsFed() && Watched() && fd != -1 && !ending
    {
      hide FedSoFar, Base;
    }

    method CallHeartbeat()
      requires Core() && state == InProtocol && AsFed()
      modifies `session, `lastVerdict, `lastInput, `rx, `tx, `trace, `written, `eaten, `bade,
               `farewell
      ensures Core() && trace == old(trace) + [Beat] && AsFed()
      ensures rx.contents == old(rx.contents) && lastInput == old(lastInput)
      ensures var r := p.heartbeat(old(session), [], old(tx.cap) - old(tx.wpos));
              written == old(written) + r.output && session == r.session
    {
      hide FedSoFar, OwnsSocket, FarewellLast, CallsInOrder, StageOf;
      var r := p.heartbeat(session, [], tx.Room());
      Apply(r.(consumed := 0, status := Ok), Beat);
      FedBeaten(p, has.connect, birth, feeding, old(Books()), old(tx.Room()), TX_CAP);
      assert Books() == old(Books()).(trace := trace, session := session, written := written);
    }
  }

  /** The next callback after `before` was a shutdown. */
  ghost predicate AskedToShut(before: seq<Call>, after: seq<Call>) {
    |before| < |after| && before <= after && after[|before|].Shutdown?
  }

  lemma AskedNow(a: seq<Call>, verdict: Status)
    ensures AskedToShut(a, a + [Shutdown(verdict)])
  {
  }

  lemma AskedBefore(a: seq<Call>, b: seq<Call>, c: seq<Call>)
    requires AskedToShut(a, b) && (b <= c || Quiet(b, c))
    ensures AskedToShut(a, c)
  {
    assert c[|a|] == b[|a|];
  }

  lemma QuietPrefix(a: seq<Call>, b: seq<Call>)
    requires Quiet(a, b)
    ensures a <= b
  {
  }

  lemma QuietRefl(a: seq<Call>)
    ensures Quiet(a, a)
  {
  }

  lemma QuietTrans(a: seq<Call>, b: seq<Call>, c: seq<Call>)
    requires Quiet(a, b) && Quiet(b, c)
    ensures Quiet(a, c)
  {
  }

  lemma Consumed(eaten: seq<byte>, rx: Fifo, n: nat)
    requires rx.Valid() && n <= |rx.contents|
    ensures eaten + rx.contents[..n] + rx.Read(n).contents == eaten + rx.contents
  {
    assert rx.contents == rx.contents[..n] + rx.contents[n..];
  }

  lemma Booked<S(!new)>(
    p: Protocol<S>, stage: Stage, bade: bool, written: seq<byte>, farewell: Farewell<S>, output: seq<byte>)
    requires bade <==> stage == Shut
    requires EndsWith(written, output)
    requires bade ==> farewell.bytes == output && Final(p, farewell)
    ensures FarewellLast(p, stage, bade, written, farewell)
  {
  }

  lemma ShutOnlyByClose(connect: bool, st: Stage, call: Call)
    requires InUse(StageAfter(connect, st, call))
    ensures StageAfter(connect, st, call) == Shut <==> call == Shutdown(Close)
  {
  }

  /** Nothing has happened yet, so nothing is wrong. */
  lemma Unspoken<S(!new)>(p: Protocol<S>, connect: bool, written: seq<byte>, farewell: Farewell<S>)
    ensures StageOf(connect, []) == Fresh && CallsInOrder(Fresh, -1)
    ensures FarewellLast(p, Fresh, false, written, farewell)
    ensures BuffersSound(Empty(RX_CAP), Empty(TX_CAP))
  {
  }
}
