/**
 * An abstract operating system for the descriptor handles: a filesystem,
 * socket listeners, a descriptor table with the unread bytes of each open
 * descriptor, and a record of every `close` call.  Descriptor numbers are
 * handed out in increasing order and never reused, so a number names one
 * acquisition of one resource.
 */
module Posix {
  /** The sentinel for "no descriptor" (a failed `open`, `socket` or `connect`). */
  const InvalidFd: int := -1

  /** The room for a path in a Unix-domain socket address: `sizeof(sun_path) - 1` on Linux. */
  const SunPathMax: nat := 107

  class Os {
    /** Paths `open(path, O_RDWR)` succeeds on, with their bytes. */
    const files: map<string, seq<char>>
    /** Socket paths that accept a connection, with the bytes the peer sends. */
    const listeners: map<string, seq<char>>
    /** Most descriptors open at one time; `open` and `socket` fail beyond it. */
    const maxOpen: nat
    /** The open descriptors and the bytes still to be read from each. */
    var streams: map<int, seq<char>>
    var nextFd: nat
    /** Every descriptor passed to `close`, once per call. */
    var closed: multiset<int>
    /** The handle that owns each descriptor it holds. */
    ghost var owner: map<int, object>

    ghost predicate Valid()
      reads this
    {
      && (forall fd :: fd in streams ==> 0 <= fd < nextFd)
      && (forall fd :: fd in closed ==> 0 <= fd < nextFd && fd !in streams && closed[fd] == 1)
      && owner.Keys <= streams.Keys
    }

    constructor (files: map<string, seq<char>>, listeners: map<string, seq<char>>, maxOpen: nat)
      ensures Valid()
      ensures this.files == files && this.listeners == listeners && this.maxOpen == maxOpen
      ensures streams == map[] && nextFd == 0 && closed == multiset{} && owner == map[]
    {
      this.files, this.listeners, this.maxOpen := files, listeners, maxOpen;
      streams, nextFd, closed, owner := map[], 0, multiset{}, map[];
    }

    /** `open(path, O_RDWR)`: a fresh descriptor positioned at the start of the file, or -1. */
    method Open(path: string) returns (fd: int)
      requires Valid()
      modifies this
      ensures Valid()
      ensures fd == InvalidFd <==> path !in files || |old(streams)| >= maxOpen
      ensures fd != InvalidFd ==> && fd == old(nextFd)
                                  && streams == old(streams)[fd := files[path]]
      ensures fd == InvalidFd ==> streams == old(streams)
      ensures nextFd == if fd == InvalidFd then old(nextFd) else old(nextFd) + 1
      ensures closed == old(closed) && owner == old(owner)
    {
      if path !in files || |streams| >= maxOpen {
        return InvalidFd;
      }
      fd := nextFd;
      streams := streams[fd := files[path]];
      nextFd := nextFd + 1;
    }

    /** `socket(AF_UNIX, SOCK_STREAM, 0)`: a fresh, unconnected descriptor, or -1. */
    method Socket() returns (fd: int)
      requires Valid()
      modifies this
      ensures Valid()
      ensures fd == InvalidFd <==> |old(streams)| >= maxOpen
      ensures fd != InvalidFd ==> fd == old(nextFd) && streams == old(streams)[fd := []]
      ensures fd == InvalidFd ==> streams == old(streams)
      ensures nextFd == if fd == InvalidFd then old(nextFd) else old(nextFd) + 1
      ensures closed == old(closed) && owner == old(owner)
    {
      if |streams| >= maxOpen {
        return InvalidFd;
      }
      fd := nextFd;
      streams := streams[fd := []];
      nextFd := nextFd + 1;
    }

    /** `connect`: 0 when a listener is at `address`, whose bytes then become readable; -1 otherwise. */
    method Connect(fd: int, address: string) returns (result: int)
      requires Valid() && fd in streams
      modifies this
      ensures Valid()
      ensures result == 0 || result == -1
      ensures result == 0 <==> address in listeners
      ensures streams == if result == 0 then old(streams)[fd := listeners[address]] else old(streams)
      ensures nextFd == old(nextFd) && closed == old(closed) && owner == old(owner)
    {
      if address in listeners {
        streams := streams[fd := listeners[address]];
        return 0;
      }
      return -1;
    }

    /** `read(fd, &ch, 1)`: 1 and the next byte, or 0 at end of stream. */
    method ReadByte(fd: int) returns (n: int, ch: char)
      requires Valid() && fd in streams
      modifies this
      ensures Valid()
      ensures n == 0 || n == 1
      ensures n == 0 <==> old(streams)[fd] == []
      ensures n == 1 ==> ch == old(streams)[fd][0] && streams == old(streams)[fd := old(streams)[fd][1..]]
      ensures n == 0 ==> streams == old(streams)
      ensures nextFd == old(nextFd) && closed == old(closed) && owner == old(owner)
    {
      var s := streams[fd];
      if s == [] {
        return 0, '\0';
      }
      streams := streams[fd := s[1..]];
      return 1, s[0];
    }

    /** `close(fd)`: only an open descriptor may be closed, so none is closed twice. */
    method Close(fd: int)
      requires Valid() && fd in streams
      modifies this
      ensures Valid()
      ensures streams == old(streams) - {fd} && closed == old(closed) + multiset{fd}
      ensures owner == old(owner) - {fd} && nextFd == old(nextFd)
    {
      streams := streams - {fd};
      closed := closed + multiset{fd};
      owner := owner - {fd};
    }
  }

  /** The close a handle holding `fd` performs when it gives that descriptor up. */
  function ClosedBy(fd: int): (c: multiset<int>)
    ensures |c| <= 1 && InvalidFd !in c
  {
    if fd == InvalidFd then multiset{} else multiset{fd}
  }

  function DescriptorSet(fd: int): (s: set<int>)
    ensures InvalidFd !in s
  {
    if fd == InvalidFd then {} else {fd}
  }

  /** The bytes before the first newline, or all of `s` when it has none. */
  function LineOf(s: seq<char>): seq<char>
  {
    if s == [] then []
    else if s[0] == '\n' then []
    else [s[0]] + LineOf(s[1..])
  }

  /** What remains of `s` after its first line and that line's newline. */
  function RestAfterLine(s: seq<char>): seq<char>
  {
    if s == [] then []
    else if s[0] == '\n' then s[1..]
    else RestAfterLine(s[1..])
  }

  /** A line never holds a newline. */
  lemma {:induction false} LineHasNoNewline(s: seq<char>)
    ensures '\n' !in LineOf(s)
  {
    if s != [] && s[0] != '\n' {
      LineHasNoNewline(s[1..]);
    }
  }

  /** When `s` holds a newline, the line, that newline and the rest put back together give `s`. */
  lemma {:induction false} LineSplitAtNewline(s: seq<char>)
    requires '\n' in s
    ensures s == LineOf(s) + ['\n'] + RestAfterLine(s)
  {
    if s[0] != '\n' {
      assert s == [s[0]] + s[1..];
      LineSplitAtNewline(s[1..]);
    } else {
      assert s == ['\n'] + s[1..];
    }
  }

  /** Without a newline, the line is all of `s` and nothing remains. */
  lemma {:induction false} LineWithoutNewline(s: seq<char>)
    requires '\n' !in s
    ensures LineOf(s) == s && RestAfterLine(s) == []
  {
    if s != [] {
      assert s == [s[0]] + s[1..];
      LineWithoutNewline(s[1..]);
    }
  }

  /** The bytes of `path` before its first NUL: what `c_str()` presents to C. */
  function UpToNul(path: string): (p: string)
    ensures |p| <= |path| && p == path[..|p|] && '\0' !in p
    ensures |p| < |path| ==> path[|p|] == '\0'
  {
    if path == [] || path[0] == '\0' then [] else [path[0]] + UpToNul(path[1..])
  }

  /**
   * The path stored in a zeroed `sockaddr_un` by `strncpy(sun_path, path, 107)`:
   * at most 107 bytes, stopping at the first NUL, so the address stays terminated.
   */
  function SocketAddress(path: string): (addr: string)
    ensures |addr| <= SunPathMax && |addr| <= |path| && '\0' !in addr
    ensures addr == path[..|addr|]
    ensures |addr| < |path| ==> path[|addr|] == '\0' || |addr| == SunPathMax
    ensures '\0' !in path && |path| <= SunPathMax ==> addr == path
  {
    var p := UpToNul(path);
    if |p| <= SunPathMax then p else p[..SunPathMax]
  }
}
