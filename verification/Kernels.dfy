/** The sockets of one connection as the operating system sees them. */
module Kernels {

  datatype Interest = Interest(read: bool, write: bool)

  /** The open sockets, what each is watched for, and how many were ever created and released.
      The preconditions are the rules of the game: no number is released unless it is open, and no
      watched socket is released before its watch is cleared. */
  datatype Kernel = Kernel(open: set<int>, interest: map<int, Interest>, created: nat, released: nat) {

    ghost predicate Valid() {
      && (forall fd <- open :: fd >= 0)
      && interest.Keys <= open
      && created == released + |open|
    }

    /** The kernel hands out a number that is not in use. */
    ghost function Socket(fd: int): (k: Kernel)
      requires Valid() && fd >= 0 && fd !in open
      ensures k.Valid()
    {
      this.(open := open + {fd}, created := created + 1)
    }

    ghost function Close(fd: int): (k: Kernel)
      requires Valid() && fd in open && fd !in interest
      ensures k.Valid()
    {
      this.(open := open - {fd}, released := released + 1)
    }

    ghost function Clear(fd: int): (k: Kernel)
      requires Valid()
      ensures k.Valid() && fd !in k.interest
    {
      this.(interest := interest - {fd})
    }

    /** Watching a number that is not open is refused without effect. */
    ghost function Subscribe(fd: int, read: bool, write: bool): (k: Kernel)
      requires Valid()
      ensures k.Valid()
    {
      if fd in open then this.(interest := interest[fd := Interest(read, write)]) else this
    }
  }

  ghost const NO_SOCKETS: Kernel := Kernel({}, map[], 0, 0)
}
