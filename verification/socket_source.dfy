/**
 * A telemetry source reading lines from a Unix-domain socket: `OpenSource`
 * (re)connects a socket handle to the configured path, `ReadSource` hands out
 * its next line.
 */
module SocketSources {
  import opened Posix
  import opened SafeSockets

  class SocketTelemetrySource {
    const filePath: string
    var socketPtr: SafeSocket?

    ghost predicate Valid(os: Os)
      reads this, socketPtr, os
    {
      socketPtr != null ==> socketPtr.Valid(os)
    }

    /** A new source holds no handle. */
    constructor (path: string)
      ensures filePath == path && socketPtr == null
    {
      filePath := path;
      socketPtr := null;
    }

    /** The descriptor the source holds, `-1` when it holds no handle or a closed one. */
    ghost function HeldFd(): int
      reads this, socketPtr
    {
      if socketPtr == null then InvalidFd else socketPtr.socketfd
    }

    /**
     * Connects a fresh handle, then destroys the handle held before (closing
     * its descriptor if it has one); reports whether the new handle connected.
     * A socket whose `connect` is refused is closed again at once.
     */
    method OpenSource(os: Os) returns (ok: bool)
      requires os.Valid() && Valid(os)
      modifies this, os
      ensures os.Valid() && Valid(os)
      ensures socketPtr != null && fresh(socketPtr)
      ensures ok <==> socketPtr.socketfd != InvalidFd
      ensures ok <==> |old(os.streams)| < os.maxOpen && SocketAddress(filePath) in os.listeners
      ensures ok ==> socketPtr.socketfd == old(os.nextFd)
      ensures os.streams == (if ok then old(os.streams)[old(os.nextFd) := os.listeners[SocketAddress(filePath)]]
                             else old(os.streams)) - DescriptorSet(old(HeldFd()))
      ensures os.owner == (if ok then old(os.owner)[old(os.nextFd) := socketPtr]
                           else old(os.owner)) - DescriptorSet(old(HeldFd()))
      ensures os.closed == old(os.closed)
                           + (if |old(os.streams)| < os.maxOpen && !ok then multiset{old(os.nextFd)} else multiset{})
                           + ClosedBy(old(HeldFd()))
      ensures os.nextFd == if |old(os.streams)| < os.maxOpen then old(os.nextFd) + 1 else old(os.nextFd)
    {
      ghost var held := HeldFd();
      var handle := new SafeSocket(filePath, os);
      ghost var connected, added := os.streams, os.owner;
      Adopt(handle, os);
      assert os.streams == connected - DescriptorSet(held);
      assert os.owner == added - DescriptorSet(held);
      ok := handle.IsOpen(os);
    }

    /** Destroys the handle held, if any, and holds `handle` instead. */
    method Adopt(handle: SafeSocket, os: Os)
      requires os.Valid() && Valid(os) && handle.Valid(os) && handle != socketPtr
      modifies this, os
      ensures os.Valid() && Valid(os) && socketPtr == handle
      ensures os.streams == old(os.streams) - DescriptorSet(old(HeldFd()))
      ensures os.owner == old(os.owner) - DescriptorSet(old(HeldFd()))
      ensures os.closed == old(os.closed) + ClosedBy(old(HeldFd()))
      ensures os.nextFd == old(os.nextFd)
    {
      if socketPtr != null {
        socketPtr.Destroy(os);
      }
      socketPtr := handle;
    }

    /** Gives the next line when the socket is connected; otherwise fails and leaves `out` as it was. */
    method ReadSource(os: Os, out: string) returns (ok: bool, out': string)
      requires os.Valid() && Valid(os)
      modifies os
      ensures os.Valid() && Valid(os)
      ensures ok <==> HeldFd() != InvalidFd
      ensures !ok ==> out' == out && os.streams == old(os.streams)
      ensures ok ==> && out' == LineOf(old(os.streams)[HeldFd()])
                     && os.streams == old(os.streams)[HeldFd() := RestAfterLine(old(os.streams)[HeldFd()])]
      ensures os.closed == old(os.closed) && os.owner == old(os.owner) && os.nextFd == old(os.nextFd)
    {
      out' := out;
      ok := false;
      if socketPtr != null {
        var open := socketPtr.IsOpen(os);
        if open {
          out' := socketPtr.Read(os);
          ok := true;
        }
      }
    }
  }

  /**
   * A peer at `path` sends "a\n\nb": three reads give "a", "" and "b", and a
   * fourth at end of stream still succeeds with "".
   */
  method ReadLinesScenario(path: string) returns (lines: seq<string>, allOk: bool)
    requires '\0' !in path && |path| <= SunPathMax
    ensures allOk && lines == ["a", "", "b", ""]
  {
    var os := new Os(map[], map[path := "a\n\nb"], 4);
    assert |os.streams| == 0;
    var source := new SocketTelemetrySource(path);
    var connected := source.OpenSource(os);
    assert SocketAddress(path) == path;
    assert LineOf("a\n\nb") == "a" && RestAfterLine("a\n\nb") == "\nb" by {
      assert "a\n\nb"[1..] == "\n\nb" && "\n\nb"[1..] == "\nb";
    }
    assert LineOf("\nb") == "" && RestAfterLine("\nb") == "b";
    assert LineOf("b") == "b" && RestAfterLine("b") == "" by {
      assert "b"[1..] == "";
    }
    var ok1, l1 := source.ReadSource(os, "");
    var ok2, l2 := source.ReadSource(os, "");
    var ok3, l3 := source.ReadSource(os, "");
    var ok4, l4 := source.ReadSource(os, "");
    lines := [l1, l2, l3, l4];
    allOk := ok1 && ok2 && ok3 && ok4;
  }
}
