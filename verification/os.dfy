/** The operating system as the server sees it: the set of open descriptors, and calls whose
    results are left open within their contracts. */
module OperatingSystem {

  datatype PollEvent = PollIn | PollOut | PollErr | PollHup | PollNval

  /** `struct pollfd`, flags being sets of events. */
  datatype PollFd = PollFd(fd: int, events: set<PollEvent>, revents: set<PollEvent>)

  const NO_POLLFD := PollFd(0, {}, {})

  /** What `poll` may report about an entry. */
  ghost predicate PossibleReport(p: PollFd) {
    && p.revents <= p.events + {PollErr, PollHup, PollNval}
    && (p.fd < 0 ==> p.revents == {})
  }

  /** Number of entries with something to report. */
  function CountReady(sockets: seq<PollFd>): nat {
    if sockets == [] then 0
    else CountReady(sockets[..|sockets| - 1]) + if sockets[|sockets| - 1].revents != {} then 1 else 0
  }

  /** The calls that transfer something or change descriptors, with their arguments and results. */
  datatype Event =
    | Accepted(fd: int)
    | AcceptFailed
    | Opened(path: string, fd: int)
    | OpenFailed(path: string)
    | Closed(fd: int)
    | DataRead(fd: int, asked: nat, data: string)
    | Wrote(fd: int, offered: string, data: string)
    | WriteFailed(fd: int, offered: string, connectionReset: bool)
    | FileSent(fd: int, fileFd: int, count: nat, data: string)
    | SendFailed(fd: int, fileFd: int, count: nat, connectionReset: bool)
    | Polled(sockets: seq<PollFd>)
    | PollFailed

  class Os {
    var open: set<int>
    ghost var log: seq<Event>               // the calls made so far
    const disk: map<string, string>   // what the files of the disk hold, by path

    /** When only the listening socket is open. */
    constructor (sockfd: int, disk: map<string, string>)
      ensures open == {sockfd} && log == [] && this.disk == disk
    {
      open, log, this.disk := {sockfd}, [], disk;
    }

    /** A descriptor that is not in use, or a negative number. */
    method UnusedDescriptor() returns (fd: int)
      ensures fd >= 0 ==> fd !in open
    {
      fd := *;
      if fd in open {
        fd := -1;
      }
    }

    /** `accept`: a fresh descriptor, or an error. */
    method Accept() returns (fd: int)
      modifies this`open, this`log
      ensures fd < 0 ==> open == old(open) && log == old(log) + [AcceptFailed]
      ensures fd >= 0 ==> fd !in old(open) && open == old(open) + {fd} && log == old(log) + [Accepted(fd)]
    {
      fd := UnusedDescriptor();
      if fd >= 0 {
        open := open + {fd};
      }
      log := log + [if fd >= 0 then Accepted(fd) else AcceptFailed];
    }

    /** `open` on a file: a fresh descriptor, or an error. */
    method OpenFile(path: string) returns (fd: int)
      modifies this`open, this`log
      ensures fd < 0 ==> open == old(open) && log == old(log) + [OpenFailed(path)]
      ensures fd >= 0 ==> fd !in old(open) && open == old(open) + {fd} && log == old(log) + [Opened(path, fd)]
    {
      fd := UnusedDescriptor();
      if fd >= 0 {
        open := open + {fd};
      }
      log := log + [if fd >= 0 then Opened(path, fd) else OpenFailed(path)];
    }

    /** Closing a descriptor that is not open is not allowed. */
    method Close(fd: int)
      requires fd in open
      modifies this`open, this`log
      ensures open == old(open) - {fd} && log == old(log) + [Closed(fd)]
    {
      open, log := open - {fd}, log + [Closed(fd)];
    }

    /** `read`: some bytes, none at the end of the stream. Errors are not modelled. */
    method Read(fd: int, count: nat) returns (data: string)
      requires fd in open
      modifies this`log
      ensures |data| <= count && log == old(log) + [DataRead(fd, count, data)]
    {
      data :| |data| <= count;
      log := log + [DataRead(fd, count, data)];
    }

    /** `write`: accepts the first bytes of what is offered, or fails, because the connection was
        reset or for another reason. */
    method Write(fd: int, data: string) returns (n: int, connectionReset: bool)
      requires fd in open
      modifies this`log
      ensures n <= |data|
      ensures log == old(log) + [if n >= 0 then Wrote(fd, data, data[..n]) else WriteFailed(fd, data, connectionReset)]
    {
      n :| n <= |data|;
      connectionReset := *;
      log := log + [if n >= 0 then Wrote(fd, data, data[..n]) else WriteFailed(fd, data, connectionReset)];
    }

    /** `sendfile`: sends the first bytes of an open file, or fails. */
    method SendFile(fd: int, fileFd: int, path: string, count: nat)
      returns (n: int, connectionReset: bool, data: string)
      requires fd in open && fileFd in open
      modifies this`log
      ensures n <= count && (n >= 0 ==> |data| == n && (path in disk ==> data <= disk[path]))
      ensures log == old(log) + [if n >= 0 then FileSent(fd, fileFd, count, data)
                                 else SendFailed(fd, fileFd, count, connectionReset)]
    {
      n :| n <= count;
      connectionReset := *;
      data := "";
      if n >= 0 {
        data := *;
        if |data| != n || (path in disk && !(data <= disk[path])) {
          n, data := 0, "";
        }
      }
      log := log + [if n >= 0 then FileSent(fd, fileFd, count, data)
                    else SendFailed(fd, fileFd, count, connectionReset)];
    }

    /** `poll`, which blocks until something happens: fills the reports, and returns the number of
        entries that have one, or an error. */
    method Poll(sockets: array<PollFd>) returns (n: int)
      modifies sockets, this`log
      ensures log == old(log) + [if n < 0 then PollFailed else Polled(sockets[..])]
      ensures forall i | 0 <= i < sockets.Length ::
                && sockets[i].fd == old(sockets[i].fd) && sockets[i].events == old(sockets[i].events)
                && PossibleReport(sockets[i])
      ensures n < 0 || n == CountReady(sockets[..])
    {
      var i := 0;
      n := 0;
      while i < sockets.Length
        invariant i <= sockets.Length
        invariant forall j | 0 <= j < i ::
                    && sockets[j].fd == old(sockets[j].fd) && sockets[j].events == old(sockets[j].events)
                    && PossibleReport(sockets[j])
        invariant forall j | i <= j < sockets.Length :: sockets[j] == old(sockets[j])
        invariant n == CountReady(sockets[..i]) && log == old(log)
      {
        var possible := sockets[i].events + {PollErr, PollHup, PollNval};
        var report: set<PollEvent> := {};
        if sockets[i].fd >= 0 {
          report :| report <= possible;
        }
        sockets[i] := sockets[i].(revents := report);
        assert sockets[..i + 1][..i] == sockets[..i];
        if report != {} {
          n := n + 1;
        }
        i := i + 1;
      }
      assert sockets[..] == sockets[..i];
      var fails: bool := *;
      if fails {
        n := -1;
      }
      log := log + [if n < 0 then PollFailed else Polled(sockets[..])];
    }
  }
}
