/** The epoll set: what the kernel watches for each file descriptor, and the update that makes
    it watch for given events whatever it watched before. */
module Epoll {

  datatype Events = Events(input: bool, output: bool)

  const NO_EVENTS := Events(false, false)

  datatype Operation = Add | Mod | Del

  const ENOENT: int := 2
  const EEXIST: int := 17

  type Interest = map<int, Events>

  /** Watched for nothing means not in the set. */
  function Watched(interest: Interest, fd: int): Events {
    if fd in interest then interest[fd] else NO_EVENTS
  }

  function Watching(interest: Interest, fd: int, events: Events): Interest {
    if events == NO_EVENTS then interest - {fd} else interest[fd := events]
  }

  class Epoller {
    /** The kernel's side of the epoll descriptor. */
    var interest: Interest

    constructor ()
      ensures interest == map[]
    {
      interest := map[];
    }

    /** epoll_ctl.  `fault` is an error of the kernel's own, such as a lack of memory or a closed
        descriptor; 0 when there is none. */
    method EpollCtl(operation: Operation, fd: int, events: Events, fault: int) returns (errno: int)
      modifies this
      ensures errno ==
        if fault != 0 then fault
        else if operation.Add? then (if fd in old(interest) then EEXIST else 0)
        else if fd in old(interest) then 0 else ENOENT
      ensures interest ==
        if errno != 0 then old(interest)
        else if operation.Del? then old(interest) - {fd} else old(interest)[fd := events]
    {
      if fault != 0 {
        return fault;
      }
      match operation {
        case Add =>
          if fd in interest { return EEXIST; }
          interest := interest[fd := events];
        case Mod =>
          if fd !in interest { return ENOENT; }
          interest := interest[fd := events];
        case Del =>
          if fd !in interest { return ENOENT; }
          interest := interest - {fd};
      }
      errno := 0;
    }

    /** The descriptor is watched for exactly `events` afterwards, and no other is touched,
        whether it was in the set or not.  A fault of the kernel is reported and changes
        nothing. */
    method Update(fd: int, events: Events, fault1: int, fault2: int) returns (ret: int)
      requires fault1 != ENOENT && fault1 != EEXIST
      modifies this
      ensures ret == 0 <==> fault1 == 0 && (fd in old(interest) && events != NO_EVENTS ==> fault2 == 0)
      ensures interest == if ret == 0 then Watching(old(interest), fd, events) else old(interest)
    {
      var operation := if events == NO_EVENTS then Del else Add;
      var errno := EpollCtl(operation, fd, events, fault1);
      if errno == ENOENT && operation.Del? {
        errno := 0;
        assert old(interest) - {fd} == old(interest);
      } else if errno == EEXIST && operation.Add? {
        errno := EpollCtl(Mod, fd, events, fault2);
      }
      ret := -errno;
    }
  }
}
