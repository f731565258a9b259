/**
 * A move-only owner of one connected Unix-domain stream socket (or of none,
 * `-1`).  Same ownership discipline as the file handle; construction creates
 * the socket and connects it, and gives the descriptor back on any failure.
 */
module SafeSockets {
  import opened Posix

  class SafeSocket {
    var socketfd: int

    ghost predicate Valid(os: Os)
      reads this, os
    {
      socketfd == InvalidFd || (socketfd in os.owner && os.owner[socketfd] == this)
    }

    /**
     * Creates a socket and connects it to `path` (as truncated into the
     * address).  If `socket` fails the handle is `-1`; if `connect` fails the
     * new descriptor is closed once and the handle is `-1`, so nothing leaks.
     */
    constructor (path: string, os: Os)
      requires os.Valid()
      modifies os
      ensures os.Valid() && Valid(os)
      ensures socketfd != InvalidFd <==> |old(os.streams)| < os.maxOpen && SocketAddress(path) in os.listeners
      ensures socketfd != InvalidFd ==> && socketfd == old(os.nextFd) && socketfd !in old(os.streams)
                                        && os.streams == old(os.streams)[socketfd := os.listeners[SocketAddress(path)]]
                                        && os.owner == old(os.owner)[socketfd := this]
                                        && os.closed == old(os.closed)
      ensures socketfd == InvalidFd ==> && os.streams == old(os.streams) && os.owner == old(os.owner)
                                        && os.closed == old(os.closed) + (if |old(os.streams)| < os.maxOpen
                                                                          then multiset{old(os.nextFd)}
                                                                          else multiset{})
      ensures os.nextFd == if |old(os.streams)| < os.maxOpen then old(os.nextFd) + 1 else old(os.nextFd)
    {
      var fd := Connected(path, os);
      socketfd := fd;
      new;
      if fd != InvalidFd {
        os.owner := os.owner[fd := this];
      }
    }

    /** The move constructor: takes `other`'s descriptor and leaves `other` at `-1`. */
    constructor Move(other: SafeSocket, os: Os)
      requires os.Valid() && other.Valid(os)
      modifies other, os
      ensures os.Valid() && Valid(os) && other.Valid(os)
      ensures socketfd == old(other.socketfd) && other.socketfd == InvalidFd
      ensures os.owner == if socketfd == InvalidFd then old(os.owner) else old(os.owner)[socketfd := this]
      ensures os.streams == old(os.streams) && os.closed == old(os.closed) && os.nextFd == old(os.nextFd)
    {
      socketfd := other.socketfd;
      new;
      other.socketfd := InvalidFd;
      if socketfd != InvalidFd {
        os.owner := os.owner[socketfd := this];
      }
    }

    /** Move assignment: a no-op on itself; otherwise closes its own descriptor, if any, and takes `other`'s. */
    method MoveAssign(other: SafeSocket, os: Os)
      requires os.Valid() && Valid(os) && other.Valid(os)
      modifies this, other, os
      ensures os.Valid() && Valid(os) && other.Valid(os)
      ensures other == this ==> && socketfd == old(socketfd)
                                && os.streams == old(os.streams) && os.closed == old(os.closed)
                                && os.owner == old(os.owner)
      ensures other != this ==> && socketfd == old(other.socketfd) && other.socketfd == InvalidFd
                                && os.closed == old(os.closed) + ClosedBy(old(socketfd))
                                && os.streams == old(os.streams) - DescriptorSet(old(socketfd))
                                && os.owner == if old(other.socketfd) == InvalidFd
                                               then old(os.owner) - DescriptorSet(old(socketfd))
                                               else (old(os.owner) - DescriptorSet(old(socketfd)))[old(other.socketfd) := this]
      ensures os.nextFd == old(os.nextFd)
    {
      if this != other {
        if socketfd != InvalidFd {
          os.Close(socketfd);
        }
        socketfd := other.socketfd;
        other.socketfd := InvalidFd;
        if socketfd != InvalidFd {
          os.owner := os.owner[socketfd := this];
        }
      }
    }

    method IsOpen(os: Os) returns (open: bool)
      requires os.Valid() && Valid(os)
      ensures open <==> socketfd != InvalidFd
      ensures open <==> socketfd in os.streams
    {
      open := socketfd != InvalidFd;
    }

    /** Reads up to the next newline or the end of the stream, consuming the newline. */
    method Read(os: Os) returns (line: string)
      requires os.Valid() && Valid(os)
      modifies os
      ensures os.Valid() && Valid(os)
      ensures '\n' !in line
      ensures socketfd == InvalidFd ==> line == "" && os.streams == old(os.streams)
      ensures socketfd != InvalidFd ==> && line == LineOf(old(os.streams)[socketfd])
                                        && os.streams == old(os.streams)[socketfd := RestAfterLine(old(os.streams)[socketfd])]
      ensures os.closed == old(os.closed) && os.owner == old(os.owner) && os.nextFd == old(os.nextFd)
    {
      line := "";
      if socketfd != InvalidFd {
        ghost var start := os.streams[socketfd];
        LineHasNoNewline(start);
        while true
          invariant os.Valid() && Valid(os) && socketfd in os.streams
          invariant LineOf(start) == line + LineOf(os.streams[socketfd])
          invariant RestAfterLine(start) == RestAfterLine(os.streams[socketfd])
          invariant os.streams == old(os.streams)[socketfd := os.streams[socketfd]]
          invariant os.closed == old(os.closed) && os.owner == old(os.owner) && os.nextFd == old(os.nextFd)
          decreases |os.streams[socketfd]|
        {
          ghost var before := os.streams[socketfd];
          var n, ch := os.ReadByte(socketfd);
          if n != 1 {
            break;
          }
          if ch == '\n' {
            break;
          }
          assert before == [ch] + before[1..];
          line := line + [ch];
        }
      }
    }

    /** The destructor: closes the descriptor if and only if there is one. */
    method Destroy(os: Os)
      requires os.Valid() && Valid(os)
      modifies os
      ensures os.Valid()
      ensures os.closed == old(os.closed) + ClosedBy(socketfd)
      ensures os.streams == old(os.streams) - DescriptorSet(socketfd)
      ensures os.owner == old(os.owner) - DescriptorSet(socketfd) && os.nextFd == old(os.nextFd)
    {
      if socketfd != InvalidFd {
        os.Close(socketfd);
      }
    }
  }

  /**
   * The body of the constructor before the handle exists: `socket`, then
   * `connect`, closing the new descriptor again if `connect` fails.
   */
  method Connected(path: string, os: Os) returns (fd: int)
    requires os.Valid()
    modifies os
    ensures os.Valid() && os.owner == old(os.owner)
    ensures fd != InvalidFd <==> |old(os.streams)| < os.maxOpen && SocketAddress(path) in os.listeners
    ensures fd != InvalidFd ==> && fd == old(os.nextFd) && fd !in old(os.streams)
                                && os.streams == old(os.streams)[fd := os.listeners[SocketAddress(path)]]
                                && os.closed == old(os.closed)
    ensures fd == InvalidFd ==> && os.streams == old(os.streams)
                                && os.closed == old(os.closed) + (if |old(os.streams)| < os.maxOpen
                                                                  then multiset{old(os.nextFd)}
                                                                  else multiset{})
    ensures os.nextFd == if |old(os.streams)| < os.maxOpen then old(os.nextFd) + 1 else old(os.nextFd)
  {
    fd := os.Socket();
    if fd != InvalidFd {
      var result := os.Connect(fd, SocketAddress(path));
      if result == -1 {
        os.Close(fd);
        fd := InvalidFd;
      }
    } else {
      fd := InvalidFd;
    }
  }

  /**
   * Connect to a path with no listener: the socket that was created is closed
   * exactly once and no descriptor stays open.
   */
  method ConnectRefused(path: string) returns (open: bool, closes: multiset<int>, stillOpen: nat)
    ensures !open && closes == multiset{0} && stillOpen == 0
  {
    var os := new Os(map[], map[], 4);
    assert |os.streams| == 0;
    var handle := new SafeSocket(path, os);
    open := handle.IsOpen(os);
    closes := os.closed;
    stillOpen := |os.streams|;
  }
}
