/** Dialing: trying resolved addresses in turn. */
module Dialing {
  import opened Kernels

  const ECONNREFUSED: int := 111
  const EINVAL: int := 22
  const EINPROGRESS: int := 115

  /** What the system answers for one address: the new socket or a negative number with `errno`,
      whether it could be made non-blocking, and `connect`'s result. `errno` is the error of the
      first step that failed. */
  datatype Attempt = Attempt(fd: int, nonBlocking: bool, connected: bool, errno: int)

  /** This address ends the search. */
  predicate Usable(a: Attempt) {
    a.fd >= 0 && a.nonBlocking && (a.connected || a.errno == EINPROGRESS)
  }

  ghost predicate FirstUsable(attempts: seq<Attempt>, i: int) {
    0 <= i < |attempts| && Usable(attempts[i]) && forall j :: 0 <= j < i ==> !Usable(attempts[j])
  }

  ghost predicate NoneUsable(attempts: seq<Attempt>) {
    forall j :: 0 <= j < |attempts| ==> !Usable(attempts[j])
  }

  /** How many of these attempts got as far as a socket. */
  ghost function Sockets(attempts: seq<Attempt>): nat {
    if |attempts| == 0 then 0
    else Sockets(attempts[..|attempts| - 1]) + if attempts[|attempts| - 1].fd >= 0 then 1 else 0
  }

  /** Dialing takes the first usable address, and every other socket it opened is closed again. */
  method Dial(resolved: bool, attempts: seq<Attempt>, ghost k: Kernel)
    returns (fd: int, err: int, ghost k': Kernel)
    requires k.Valid() && forall i :: 0 <= i < |attempts| ==> attempts[i].fd !in k.open
    ensures k'.Valid() && k'.interest == k.interest
    ensures fd == -1 <==> !resolved || NoneUsable(attempts)
    ensures fd == -1 ==> k'.open == k.open
    ensures fd != -1 ==>
              fd >= 0 && fd !in k.open && k'.open == k.open + {fd}
              && exists i :: FirstUsable(attempts, i) && fd == attempts[i].fd
                             && err == (if attempts[i].connected then 0 else EINPROGRESS)
                             && k'.created == k.created + Sockets(attempts[..i + 1])
    ensures !resolved ==> err == EINVAL && k' == k
    ensures resolved && fd == -1 ==>
              k'.created == k.created + Sockets(attempts)
              && err == if attempts == [] then ECONNREFUSED else attempts[|attempts| - 1].errno
  {
    fd, err, k' := -1, ECONNREFUSED, k;
    if !resolved {
      err := EINVAL;
      return;
    }
    var i := 0;
    while i < |attempts|
      invariant 0 <= i <= |attempts| && fd == -1
      invariant forall j :: 0 <= j < i ==> !Usable(attempts[j])
      invariant k'.Valid() && k'.interest == k.interest && k'.open == k.open
      invariant k'.created == k.created + Sockets(attempts[..i])
      invariant err == if i == 0 then ECONNREFUSED else attempts[i - 1].errno
    {
      var a := attempts[i];
      assert attempts[..i + 1][..i] == attempts[..i];
      i := i + 1;
      if a.fd < 0 {
        err := a.errno;
        continue;
      }
      k' := k'.Socket(a.fd);
      if !a.nonBlocking {
        err := a.errno;
        k' := k'.Close(a.fd);
        continue;
      }
      if a.connected {
        err, fd := 0, a.fd;
        assert FirstUsable(attempts, i - 1);
        return;
      }
      err := a.errno;
      if err == EINPROGRESS {
        fd := a.fd;
        assert FirstUsable(attempts, i - 1);
        return;
      }
      k' := k'.Close(a.fd);
    }
    assert attempts[..i] == attempts;
  }
}
