/** The fixed-capacity byte buffer between a connection's layers. */
module Buffers {
  import opened Bytes

  /** What a buffer means: a first-in first-out queue of bytes. `wpos` is how much of the storage
      is used up; it falls back to zero only when the queue empties, so room can be lost to bytes
      already read. */
  datatype Fifo = Fifo(cap: nat, contents: seq<byte>, wpos: nat) {

    ghost predicate Valid() {
      |contents| <= wpos <= cap && (contents == [] ==> wpos == 0)
    }

    function Room(): nat
      requires Valid()
    {
      cap - wpos
    }

    predicate Full() {
      cap == wpos
    }

    function Wrote(bytes: seq<byte>): (q: Fifo)
      requires Valid() && |bytes| <= Room()
      ensures q.Valid() && q.cap == cap
    {
      Fifo(cap, contents + bytes, wpos + |bytes|)
    }

    function Read(n: nat): (q: Fifo)
      requires Valid() && n <= |contents|
      ensures q.Valid() && q.cap == cap
    {
      if n == |contents| then Empty(cap) else Fifo(cap, contents[n..], wpos)
    }
  }

  function Empty(cap: nat): (q: Fifo)
    ensures q.Valid() && q.Room() == cap
  {
    Fifo(cap, [], 0)
  }

  /** Reading gives room back only by emptying the buffer, and then all of it. */
  lemma RoomComesBack(q: Fifo, n: nat)
    requires q.Valid() && n <= |q.contents|
    ensures q.Read(n).Room() == if n == |q.contents| then q.cap else q.Room()
    ensures q.Read(n).contents == q.contents[n..]
  {
  }

  datatype Op = Put(bytes: seq<byte>) | Take(n: nat)

  ghost predicate Enabled(q: Fifo, op: Op) {
    q.Valid() && match op case Put(bytes) => |bytes| <= q.Room() case Take(n) => n <= |q.contents|
  }

  ghost function Next(q: Fifo, op: Op): (r: Fifo)
    requires Enabled(q, op)
    ensures TakenBy(q, op) + r.contents == q.contents + PutBy(op)
  {
    match op case Put(bytes) => q.Wrote(bytes) case Take(n) => q.Read(n)
  }

  ghost function PutBy(op: Op): seq<byte> {
    match op case Put(bytes) => bytes case Take(_) => []
  }

  ghost function TakenBy(q: Fifo, op: Op): seq<byte>
    requires Enabled(q, op)
  {
    match op case Put(_) => [] case Take(n) => q.contents[..n]
  }

  /** `q` can perform `ops` one after the other. */
  ghost predicate Possible(q: Fifo, ops: seq<Op>)
    decreases |ops|
  {
    |ops| > 0 ==> Enabled(q, ops[0]) && Possible(Next(q, ops[0]), ops[1..])
  }

  ghost function After(q: Fifo, ops: seq<Op>): Fifo
    requires Possible(q, ops)
    decreases |ops|
  {
    if |ops| == 0 then q else After(Next(q, ops[0]), ops[1..])
  }

  ghost function AllPut(ops: seq<Op>): seq<byte> {
    if |ops| == 0 then [] else PutBy(ops[0]) + AllPut(ops[1..])
  }

  ghost function AllTaken(q: Fifo, ops: seq<Op>): seq<byte>
    requires Possible(q, ops)
    decreases |ops|
  {
    if |ops| == 0 then [] else TakenBy(q, ops[0]) + AllTaken(Next(q, ops[0]), ops[1..])
  }

  /** Over any run nothing is lost, repeated or reordered: what was taken followed by what is left
      is what was there followed by what was put. */
  lemma {:induction false} Conservation(q: Fifo, ops: seq<Op>)
    requires Possible(q, ops)
    ensures AllTaken(q, ops) + After(q, ops).contents == q.contents + AllPut(ops)
    decreases |ops|
  {
    hide Next, TakenBy, PutBy, Enabled;
    if |ops| > 0 {
      var taken, q' := TakenBy(q, ops[0]), Next(q, ops[0]);
      Conservation(q', ops[1..]);
      Regroup(taken, AllTaken(q', ops[1..]), After(q', ops[1..]).contents);
      Regroup(taken, q'.contents, AllPut(ops[1..]));
      Regroup(q.contents, PutBy(ops[0]), AllPut(ops[1..]));
    }
  }

  class Buffer {
    const data: array<byte>
    var rpos: nat
    var wpos: nat

    ghost predicate Valid()
      reads this
    {
      rpos <= wpos <= data.Length && (rpos == wpos ==> wpos == 0)
    }

    ghost function View(): (q: Fifo)
      requires Valid()
      reads this, data
      ensures q.Valid()
    {
      Fifo(data.Length, data[rpos..wpos], wpos)
    }

    constructor (cap: nat)
      ensures Valid() && fresh(data)
      ensures View() == Empty(cap)
    {
      data := new byte[cap](_ => 0);
      rpos, wpos := 0, 0;
    }

    /** The readable view. */
    method RBuf() returns (view: seq<byte>)
      requires Valid()
      ensures view == View().contents
    {
      view := data[rpos..wpos];
    }

    /** The size of the writable view. */
    function Room(): (n: nat)
      requires Valid()
      reads this, data
      ensures n == View().Room()
    {
      data.Length - wpos
    }

    predicate Full()
      requires Valid()
      reads this, data
      ensures Full() <==> View().Full()
    {
      data.Length == wpos
    }

    method Clear()
      modifies this
      ensures Valid() && View() == Empty(data.Length)
    {
      rpos, wpos := 0, 0;
    }

    /** Publishes the first `len` bytes of the writable view. */
    method IncWpos(len: nat)
      requires Valid() && len <= Room()
      modifies this
      ensures Valid() && View() == old(View()).Wrote(data[old(wpos)..old(wpos) + len])
    {
      wpos := wpos + len;
    }

    /** Drops `len` bytes from the front; a drained buffer regains its whole capacity. */
    method IncRpos(len: nat)
      requires Valid() && len <= wpos - rpos
      modifies this
      ensures Valid() && View() == old(View()).Read(len)
    {
      rpos := rpos + len;
      if rpos == wpos {
        rpos, wpos := 0, 0;
      }
    }

    /** Copies `bytes` to the front of the writable view and publishes them. */
    method Append(bytes: seq<byte>)
      requires Valid() && |bytes| <= Room()
      modifies this, data
      ensures Valid() && View() == old(View()).Wrote(bytes)
    {
      forall i | 0 <= i < |bytes| {
        data[wpos + i] := bytes[i];
      }
      assert data[wpos..wpos + |bytes|] == bytes;
      assert data[rpos..wpos] == old(data[rpos..wpos]);
      IncWpos(|bytes|);
    }
  }
}
