/** The event loop over a fixed set of connections. */
module Reactors {
  import opened Options
  import opened CallOrder
  import opened Connections

  /** One polled event: the kill signal, or an edge on a connection's socket. */
  datatype Happening = Kill | Edge(index: nat, ev: Event)

  /** What is remembered of a connection: its callbacks, how often it was dialed, its state, and
      whether it had parted. */
  datatype Mark = Mark(trace: seq<Call>, dials: nat, state: State, parted: bool)

  /** In between nothing was dialed, no protocol was called except to shut down, and no farewell
      or end was taken back. */
  ghost predicate Calm(a: Mark, b: Mark) {
    && a.dials == b.dials && Quiet(a.trace, b.trace)
    && (Ending(a.state) ==> Ending(b.state) && (a.parted ==> b.parted))
  }

  /** In between the connection was told to stop: besides, it is ending, and one that was in normal
      operation with a prompt shutdown handler has parted. */
  ghost predicate WoundDown(a: Mark, b: Mark, polite: bool) {
    Calm(a, b) && Ending(b.state) && (polite && a.state == InProtocol ==> b.parted)
  }

  lemma CalmTrans(a: Mark, b: Mark, c: Mark, polite: bool)
    requires Calm(b, c)
    ensures Calm(a, b) ==> Calm(a, c)
    ensures WoundDown(a, b, polite) ==> WoundDown(a, c, polite)
  {
    hide Quiet, Ending;
    if Calm(a, b) {
      QuietTrans(a.trace, b.trace, c.trace);
    }
  }

  /** The first kill among these events. */
  ghost function FirstKill(hs: seq<Happening>): (k: nat)
    requires Kill in hs
    ensures k < |hs| && hs[k] == Kill && Kill !in hs[..k]
  {
    if hs[0] == Kill then 0 else 1 + FirstKill(hs[1..])
  }

  lemma {:induction false} FirstKillStays(hs: seq<Happening>, h: Happening)
    ensures Kill in hs ==> FirstKill(hs + [h]) == FirstKill(hs)
    ensures Kill !in hs && h == Kill ==> FirstKill(hs + [h]) == |hs|
  {
    if |hs| > 0 && hs[0] != Kill {
      assert (hs + [h])[1..] == hs[1..] + [h];
      FirstKillStays(hs[1..], h);
    }
  }

  /** A stop was asked for exactly if a kill was among the events, and what is remembered is what
      the first of them found. */
  ghost predicate Told(stopping: bool, killed: seq<Mark>, handled: seq<Happening>, history: seq<seq<Mark>>) {
    && |handled| == |history| && (stopping <==> Kill in handled)
    && (stopping ==> killed == history[FirstKill(handled)])
  }

  lemma ToldNext(
    stopping: bool, killed: seq<Mark>, handled: seq<Happening>, history: seq<seq<Mark>>,
    h: Happening, marks: seq<Mark>)
    requires Told(stopping, killed, handled, history)
    ensures Told(stopping || h.Kill?, if h.Kill? && !stopping then marks else killed,
                 handled + [h], history + [marks])
  {
    hide FirstKill;
    FirstKillStays(handled, h);
  }

  /** All events of these rounds. */
  ghost function Batches(rounds: seq<Option<seq<Happening>>>): seq<Happening> {
    if |rounds| == 0 then []
    else
      var last := rounds[|rounds| - 1];
      Batches(rounds[..|rounds| - 1]) + if last.Some? then last.value else []
  }

  class Reactor<S(!new)> {
    const connections: seq<Connection<S>>
    var stopping: bool
    var counter: nat
    var alive: bool             // false once the network was told to stop
    ghost var pollFailed: bool
    ghost var killed: seq<Mark>  // the connections when the kill arrived
    ghost var handled: seq<Happening>     // every event so far,
    ghost var history: seq<seq<Mark>>     // and the connections as each found them

    ghost predicate Distinct() {
      forall i, j :: 0 <= i < j < |connections| ==> connections[i] != connections[j]
    }

    /** No call into any connection is in progress, and all of them were attached. */
    ghost predicate AllResting()
      reads connections
    {
      forall i :: 0 <= i < |connections| ==> connections[i].Resting() && connections[i].state != Uninitialized
    }

    ghost predicate AllDone()
      reads connections
    {
      forall i :: 0 <= i < |connections| ==> connections[i].Done()
    }

    ghost predicate AllEnding()
      reads connections
    {
      forall i :: 0 <= i < |connections| ==> Ending(connections[i].state)
    }

    /** The network is stopped exactly when polling failed, or a stop was asked for and every
        connection is done. */
    ghost predicate Valid()
      reads this, connections
    {
      && Distinct() && AllResting() && Told(stopping, killed, handled, history)
      && (stopping ==> AllEnding() && AllWoundDown(killed))
      && (!pollFailed ==> (!alive <==> stopping && AllDone()))
      && (pollFailed ==> !alive)
    }

    static ghost function MarkOf(c: Connection<S>): Mark
      reads c
    {
      Mark(c.trace, c.dials, c.state, c.Parted())
    }

    static ghost predicate Polite(c: Connection<S>) {
      c.has.shutdown && Prompt(c.p)
    }

    ghost function Marks(): (marks: seq<Mark>)
      reads connections
      ensures |marks| == |connections|
      ensures forall i :: 0 <= i < |marks| ==> marks[i] == MarkOf(connections[i])
    {
      seq(|connections|, i requires 0 <= i < |connections| reads connections => MarkOf(connections[i]))
    }

    ghost predicate CalmSince(marks: seq<Mark>)
      reads connections
    {
      |marks| == |connections| && forall i :: 0 <= i < |connections| ==> Calm(marks[i], MarkOf(connections[i]))
    }

    ghost predicate AllWoundDown(marks: seq<Mark>)
      reads connections
    {
      |marks| == |connections|
      && forall i :: 0 <= i < |connections| ==>
           WoundDown(marks[i], MarkOf(connections[i]), Polite(connections[i]))
    }

    constructor (connections: seq<Connection<S>>)
      ensures this.connections == connections && alive && !stopping && !pollFailed && handled == [] && history == []
    {
      this.connections := connections;
      stopping, counter, alive, pollFailed := false, 0, true, false;
      killed, handled, history := [], [], [];
    }

    /** Attaches every connection in turn. */
    method Init()
      requires Distinct() && alive && !stopping && !pollFailed && handled == [] && history == []
      requires forall i :: 0 <= i < |connections| ==>
                 connections[i].Resting() && !connections[i].attached && connections[i].state == Uninitialized
      modifies connections
      ensures Valid() && forall i :: 0 <= i < |connections| ==> connections[i].attached
      ensures forall i :: 0 <= i < |connections| ==> connections[i].dials == old(connections[i].dials) + 1
    {
      hide Connection.Resting;
      for i := 0 to |connections|
        invariant forall j :: 0 <= j < |connections| ==> connections[j].Resting()
        invariant forall j :: 0 <= j < i ==>
                    connections[j].attached && connections[j].state != Uninitialized
                    && connections[j].dials == old(connections[j].dials) + 1
        invariant forall j :: i <= j < |connections| ==> connections[j].dials == old(connections[j].dials)
        invariant forall j :: i <= j < |connections| ==>
                    !connections[j].attached && connections[j].state == Uninitialized
      {
        AttachOne(connections[i]);
      }
    }

    static method AttachOne(c: Connection<S>)
      requires c.Resting() && !c.attached && c.state == Uninitialized
      modifies c
      ensures c.Resting() && c.state != Uninitialized && c.attached && c.dials == old(c.dials) + 1
    {
      hide Connection.Resting;
      UndialedHasNoSocket(c);
      c.Attach();
    }

    static lemma UndialedHasNoSocket(c: Connection<S>)
      requires c.Resting() && c.state == Uninitialized
      ensures c.fd == -1
    {
    }

    method StopAll()
      requires Distinct() && AllResting()
      modifies connections
      ensures AllResting() && AllEnding() && CalmSince(old(Marks())) && AllWoundDown(old(Marks()))
    {
      hide Connection.Resting, Quiet, Ending, Connection.Parted;
      for i := 0 to |connections|
        invariant AllResting()
        invariant forall j :: 0 <= j < i ==>
                    WoundDown(old(Marks())[j], MarkOf(connections[j]), Polite(connections[j]))
        invariant forall j :: i <= j < |connections| ==> MarkOf(connections[j]) == old(Marks())[j]
      {
        var c := connections[i];
        StopOne(c);
      }
    }

    static method StopOne(c: Connection<S>)
      requires c.Resting()
      modifies c
      ensures c.Resting() && c.state != Uninitialized
      ensures WoundDown(old(MarkOf(c)), MarkOf(c), Polite(c))
    {
      hide Connection.Resting, Quiet;
      c.Stop();
    }

    lemma QuietAll()
      ensures CalmSince(Marks())
    {
    }

    /** What was calm before stays calm through a calm spell. */
    lemma CalmOn(marks: seq<Mark>, between: seq<Mark>)
      requires |marks| == |between| && CalmSince(between)
      ensures (forall i :: 0 <= i < |marks| ==> Calm(marks[i], between[i])) ==> CalmSince(marks)
      ensures (forall i :: 0 <= i < |marks| ==> WoundDown(marks[i], between[i], Polite(connections[i])))
              ==> AllWoundDown(marks)
    {
      hide Calm, WoundDown;
      forall i | 0 <= i < |marks|
        ensures Calm(marks[i], between[i]) ==> Calm(marks[i], MarkOf(connections[i]))
        ensures WoundDown(marks[i], between[i], Polite(connections[i]))
                ==> WoundDown(marks[i], MarkOf(connections[i]), Polite(connections[i]))
      {
        CalmTrans(marks[i], between[i], MarkOf(connections[i]), Polite(connections[i]));
      }
    }

    /** A heartbeat for every connection; those leaving normal operation get none. */
    method HeartbeatAll()
      requires Distinct() && AllResting()
      modifies connections
      ensures AllResting()
      ensures old(AllEnding()) ==> AllEnding() && CalmSince(old(Marks()))
      ensures old(AllEnding()) ==> (AllDone() <==> old(AllDone()))
      ensures forall i :: 0 <= i < |connections| ==>
                Beaten(connections[i], old(connections[i].state), old(connections[i].trace))
    {
      hide Connection.Resting, Quiet, Beaten;
      QuietAll();
      for i := 0 to |connections|
        invariant AllResting()
        invariant old(AllEnding()) ==> CalmSince(old(Marks()))
        invariant old(AllEnding()) ==>
                    forall j :: 0 <= j < |connections| ==> connections[j].state == old(connections[j].state)
        invariant forall j :: 0 <= j < i ==>
                    Beaten(connections[j], old(connections[j].state), old(connections[j].trace))
        invariant forall j :: i <= j < |connections| ==> MarkOf(connections[j]) == old(Marks())[j]
      {
        BeatOne(connections[i]);
      }
    }

    /** A heartbeat reached the protocol exactly if it has a handler and was in normal operation. */
    static ghost predicate Beaten(c: Connection<S>, state: State, trace: seq<Call>)
      reads c
    {
      if state == InProtocol && c.has.heartbeat then trace + [Beat] <= c.trace else c.trace == trace
    }

    static method BeatOne(c: Connection<S>)
      requires c.Resting() && c.state != Uninitialized
      modifies c
      ensures c.Resting() && c.state != Uninitialized && c.dials == old(c.dials)
      ensures old(Ending(c.state)) ==> c.state == old(c.state) && Calm(old(MarkOf(c)), MarkOf(c))
      ensures Beaten(c, old(c.state), old(c.trace))
    {
      hide Connection.Resting, Quiet;
      QuietRefl(c.trace);
      c.Heartbeat();
    }

    /** An edge on one connection. A connection that closed in good order is dialed again, unless
        the reactor is stopping. */
    method HandleEdge(index: nat, ev: Event) returns (ghost ended: State)
      requires Distinct() && AllResting() && index < |connections|
      requires stopping ==> AllEnding()
      modifies connections[index]
      ensures AllResting() && (old(AllDone()) ==> AllDone())
      ensures stopping ==> AllEnding() && CalmSince(old(Marks()))
      ensures var c := connections[index];
              && (old(c.Done()) ==> c.dials == old(c.dials) && c.state == old(c.state))
              && Redialed(c, old(c.dials), ended, !old(c.Done()) && !stopping)
              && (!old(c.Done()) ==> Taken(c, old(c.state), old(c.dials), ended, ev))
              && c.log == old(c.log) + Asked(ev, ended, old(c.Done()), stopping)
    {
      hide Connection.Resting, Quiet, Taken;
      QuietAll();
      ended := EdgeOne(connections[index], ev, stopping);
    }

    /** Exactly a connection that just closed is dialed again, if that is allowed at all. */
    static ghost predicate Redialed(c: Connection<S>, dials: nat, ended: State, allowed: bool)
      reads c
    {
      if allowed && ended == Closed then c.dials == dials + 1 else c.dials == dials && c.state == ended
    }

    /** The edge reached the connection: it did to it what `HandleEvent` says, as far as a dial after
        it did not begin everything anew. */
    static ghost predicate Taken(c: Connection<S>, before: State, dials: nat, ended: State, ev: Event)
      reads c
    {
      && (before == InProgress ==>
            (ended == InProgress <==> !ev.writeable && !ev.error && !ev.close)
            && (!ev.writeable && (ev.error || ev.close) ==> ended == InError))
      && (before == CloseTransport && !c.has.closing ==> ended == Closed)
      && (c.dials == dials ==>
            c.state == ended && c.Moved(before, Some(ev)) && c.Stuck() && (Talking(ended) ==> c.Drained(ev)))
    }

    /** What the reactor asks of a connection on an edge. */
    static ghost function Asked(ev: Event, ended: State, done: bool, stopping: bool): seq<Request> {
      if done then [] else if !stopping && ended == Closed then [Happened(ev), Restarting] else [Happened(ev)]
    }

    /** `ended` is where the event itself left the connection. */
    static method EdgeOne(c: Connection<S>, ev: Event, stopping: bool) returns (ghost ended: State)
      requires c.Resting() && c.state != Uninitialized && (stopping ==> Ending(c.state))
      modifies c
      ensures c.Resting() && c.state != Uninitialized
      ensures stopping ==> Ending(c.state) && Calm(old(MarkOf(c)), MarkOf(c))
      ensures old(c.Done()) ==> c.dials == old(c.dials) && c.state == old(c.state) && c.trace == old(c.trace)
      ensures Redialed(c, old(c.dials), ended, !old(c.Done()) && !stopping)
      ensures !old(c.Done()) ==> Taken(c, old(c.state), old(c.dials), ended, ev)
      ensures c.log == old(c.log) + Asked(ev, ended, old(c.Done()), stopping)
    {
      hide Connection.Resting, Connection.Stuck, Connection.Drained, Quiet;
      if c.state != Closed && c.state != InError {
        c.HandleEvent(ev);
        ended := c.state;
        if !stopping && c.state == Closed {
          c.Restart();
        }
      } else {
        ended := c.state;
        QuietRefl(c.trace);
      }
    }

    method CheckAllDone() returns (b: bool)
      ensures b <==> AllDone()
    {
      b := true;
      for i := 0 to |connections|
        invariant b <==> forall j :: 0 <= j < i ==> connections[j].Done()
      {
        b := b && (connections[i].state == InError || connections[i].state == Closed);
      }
    }

    /** One polled event. */
    method Handle(h: Happening) returns (ghost ended: State)
      requires Valid() && (h.Edge? ==> h.index < |connections|)
      modifies this, connections
      ensures Valid() && pollFailed == old(pollFailed)
      ensures stopping <==> old(stopping) || h.Kill?
      ensures stopping ==> CalmSince(old(Marks()))
      ensures killed == if stopping && !old(stopping) then old(Marks()) else old(killed)
      ensures handled == old(handled) + [h] && history == old(history) + [old(Marks())]
      ensures h.Edge? ==>
                var c := connections[h.index];
                && Redialed(c, old(c.dials), ended, !old(c.Done()) && !stopping)
                && (!old(c.Done()) ==> Taken(c, old(c.state), old(c.dials), ended, h.ev))
                && c.log == old(c.log) + Asked(h.ev, ended, old(c.Done()), stopping)
                && forall i :: 0 <= i < |connections| && i != h.index ==> MarkOf(connections[i]) == old(Marks())[i]
    {
      hide Connection.Resting, Quiet, Connection.Done, Calm, WoundDown, Connection.Parted, Told, Taken, Redialed;
      hide AllResting, AllEnding, AllWoundDown, Asked;
      QuietAll();
      ghost var marks := Marks();
      ended := Closed;
      if stopping {
        WoundDownNow();
      }
      ToldNext(stopping, killed, handled, history, h, marks);
      handled, history := handled + [h], history + [marks];
      match h {
        case Kill =>
          if !stopping {
            stopping, killed := true, marks;
            StopAll();
          }
        case Edge(index, ev) =>
          ended := HandleEdge(index, ev);
          if stopping {
            CalmOn(killed, marks);
          }
      }
      StopIfDone();
    }

    lemma WoundDownNow()
      requires AllWoundDown(killed)
      ensures |killed| == |connections|
      ensures forall i :: 0 <= i < |killed| ==> WoundDown(killed[i], Marks()[i], Polite(connections[i]))
    {
    }

    method StopIfDone()
      requires Distinct() && AllResting() && Told(stopping, killed, handled, history)
      requires stopping ==> AllEnding() && AllWoundDown(killed)
      requires !pollFailed && !alive ==> stopping && AllDone()
      requires pollFailed ==> !alive
      modifies this`alive
      ensures Valid()
    {
      hide AllResting, AllEnding, AllDone, Distinct, AllWoundDown, Told;
      if stopping {
        var all := CheckAllDone();
        if all {
          alive := false;
        }
      }
    }

    /** One round of the loop: the polled events (none if polling failed), then every 64th time a
        heartbeat. */
    method Loop(polled: Option<seq<Happening>>)
      requires Valid() && alive
      requires polled.Some? ==>
                 forall h <- polled.value :: h.Edge? ==> h.index < |connections|
      modifies this, connections
      ensures Valid() && (pollFailed <==> polled.None?)
      ensures polled.Some? ==> (stopping <==> old(stopping) || Kill in polled.value)
      ensures handled == old(handled) + (if polled.Some? then polled.value else []) && old(history) <= history
      ensures |history| > |old(history)| ==> history[|old(history)|] == old(Marks())
      ensures old(stopping) ==> stopping && killed == old(killed) && CalmSince(old(Marks()))
    {
      hide Connection.Resting, Quiet, Connection.Done, AllResting, AllDone, AllEnding, AllWoundDown, Calm;
      QuietAll();
      if polled.None? {
        alive, pollFailed := false, true;
      } else {
        HandleAll(polled.value);
      }
      ghost var marks := Marks();
      Tick();
      if old(stopping) {
        CalmOn(old(Marks()), marks);
      }
    }

    method Tick()
      requires Valid()
      modifies this`counter, connections
      ensures Valid() && (stopping ==> CalmSince(old(Marks())))
      ensures counter == old(counter) + 1
      ensures forall i :: 0 <= i < |connections| ==>
                if counter % 64 == 0
                then Beaten(connections[i], old(connections[i].state), old(connections[i].trace))
                else connections[i].trace == old(connections[i].trace)
    {
      hide Connection.Resting, Quiet, Connection.Done, Calm, WoundDown, Told, Beaten;
      QuietAll();
      counter := counter + 1;
      if counter % 64 == 0 {
        BeatAll();
      }
    }

    method BeatAll()
      requires Valid()
      modifies connections
      ensures Valid() && (stopping ==> CalmSince(old(Marks())))
      ensures forall i :: 0 <= i < |connections| ==>
                Beaten(connections[i], old(connections[i].state), old(connections[i].trace))
    {
      hide Connection.Resting, Quiet, Connection.Done, Calm, WoundDown, Told, Beaten;
      ghost var marks := Marks();
      HeartbeatAll();
      if stopping {
        CalmOn(killed, marks);
      }
    }

    method HandleAll(hs: seq<Happening>)
      requires Valid() && forall h <- hs :: h.Edge? ==> h.index < |connections|
      modifies this, connections
      ensures Valid() && pollFailed == old(pollFailed)
      ensures old(stopping) ==> stopping && killed == old(killed) && CalmSince(old(Marks()))
      ensures stopping <==> old(stopping) || Kill in hs
      ensures handled == old(handled) + hs && old(history) <= history
      ensures |history| > |old(history)| ==> history[|old(history)|] == old(Marks())
    {
      hide Connection.Resting, Quiet, Connection.Done, Valid, Calm;
      QuietAll();
      for k := 0 to |hs|
        invariant Valid() && pollFailed == old(pollFailed)
        invariant stopping <==> old(stopping) || Kill in hs[..k]
        invariant handled == old(handled) + hs[..k] && |history| == |old(history)| + k && old(history) <= history
        invariant k > 0 ==> history[|old(history)|] == old(Marks())
        invariant k == 0 ==> Marks() == old(Marks())
        invariant old(stopping) ==> killed == old(killed) && CalmSince(old(Marks()))
      {
        ghost var marks := Marks();
        assert hs[..k + 1] == hs[..k] + [hs[k]];
        ghost var _ := Handle(hs[k]);
        if old(stopping) {
          CalmOn(old(Marks()), marks);
        }
      }
      assert hs[..|hs|] == hs;
    }

    /** The network's run loop: rounds until the network is stopped. From the kill on, whenever it
        comes, nothing is dialed and no protocol is called again except to shut down, and whoever
        was in normal operation parts; and unless polling failed, the network is stopped only when
        every socket has been released. */
    method Run(rounds: seq<Option<seq<Happening>>>) returns (ghost n: nat)
      requires Valid()
      requires forall i :: 0 <= i < |rounds| && rounds[i].Some? ==>
                 forall h <- rounds[i].value :: h.Edge? ==> h.index < |connections|
      modifies this, connections
      ensures Valid() && (stopping ==> AllWoundDown(killed) && killed == history[FirstKill(handled)])
      ensures n <= |rounds| && (n < |rounds| ==> !alive)
      ensures handled == old(handled) + Batches(rounds[..n]) && old(history) <= history
      ensures old(stopping) ==> stopping && killed == old(killed) && CalmSince(old(Marks()))
      ensures !alive && !pollFailed ==> forall i :: 0 <= i < |connections| ==> Released(connections[i])
    {
      hide Connection.Resting, Quiet, Connection.Done, Calm, WoundDown, FirstKill, Valid, AllWoundDown;
      QuietAll();
      var i := 0;
      while i < |rounds| && alive
        invariant 0 <= i <= |rounds| && Valid()
        invariant handled == old(handled) + Batches(rounds[..i]) && old(history) <= history
        invariant old(stopping) ==> stopping && killed == old(killed) && CalmSince(old(Marks()))
      {
        ghost var marks := Marks();
        Loop(rounds[i]);
        if old(stopping) {
          CalmOn(old(Marks()), marks);
        }
        assert rounds[..i + 1][..i] == rounds[..i];
        i := i + 1;
      }
      n := i;
      Upshot();
    }

    lemma Upshot()
      requires Valid()
      ensures Told(stopping, killed, handled, history) && (stopping ==> AllWoundDown(killed))
      ensures !alive && !pollFailed ==> forall i :: 0 <= i < |connections| ==> Released(connections[i])
    {
      hide Connection.Resting, Connection.Done, AllWoundDown, Told, Released;
      forall i | 0 <= i < |connections| && !alive && !pollFailed
        ensures Released(connections[i])
      {
        DoneReleased(connections[i]);
      }
    }

    /** Every socket this connection ever opened has been closed. */
    static ghost predicate Released(c: Connection<S>)
      reads c
    {
      c.Done() && c.fd == -1 && c.kernel.open == {} && c.kernel.created == c.kernel.released
    }

    static lemma DoneReleased(c: Connection<S>)
      requires c.Resting() && c.Done()
      ensures Released(c)
    {
    }
  }
}
