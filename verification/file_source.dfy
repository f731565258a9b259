/**
 * A telemetry source reading lines from a file: `OpenSource` (re)acquires a
 * file handle for the configured path, `ReadSource` hands out its next line.
 */
module FileSources {
  import opened Posix
  import opened SafeFiles

  class FileTelemetrySource {
    const filePath: string
    var filePtr: SafeFile?

    ghost predicate Valid(os: Os)
      reads this, filePtr, os
    {
      filePtr != null ==> filePtr.Valid(os)
    }

    /** A new source holds no handle. */
    constructor (path: string)
      ensures filePath == path && filePtr == null
    {
      filePath := path;
      filePtr := null;
    }

    /** The descriptor the source holds, `-1` when it holds no handle or a closed one. */
    ghost function HeldFd(): int
      reads this, filePtr
    {
      if filePtr == null then InvalidFd else filePtr.filefd
    }

    /**
     * Opens a fresh handle on the path, then destroys the handle held before
     * (closing its descriptor if it has one); reports whether the new handle is open.
     */
    method OpenSource(os: Os) returns (ok: bool)
      requires os.Valid() && Valid(os)
      modifies this, os
      ensures os.Valid() && Valid(os)
      ensures filePtr != null && fresh(filePtr)
      ensures ok <==> filePtr.filefd != InvalidFd
      ensures ok <==> UpToNul(filePath) in os.files && |old(os.streams)| < os.maxOpen
      ensures ok ==> filePtr.filefd == old(os.nextFd)
      ensures os.streams == (if ok then old(os.streams)[old(os.nextFd) := os.files[UpToNul(filePath)]]
                             else old(os.streams)) - DescriptorSet(old(HeldFd()))
      ensures os.owner == (if ok then old(os.owner)[old(os.nextFd) := filePtr]
                           else old(os.owner)) - DescriptorSet(old(HeldFd()))
      ensures os.closed == old(os.closed) + ClosedBy(old(HeldFd()))
      ensures os.nextFd == if ok then old(os.nextFd) + 1 else old(os.nextFd)
    {
      ghost var held := HeldFd();
      var handle := new SafeFile(filePath, os);
      ghost var streamsOpen, added := os.streams, os.owner;
      Adopt(handle, os);
      assert os.streams == streamsOpen - DescriptorSet(held);
      assert os.owner == added - DescriptorSet(held);
      ok := handle.IsOpen(os);
    }

    /** Destroys the handle held, if any, and holds `handle` instead. */
    method Adopt(handle: SafeFile, os: Os)
      requires os.Valid() && Valid(os) && handle.Valid(os) && handle != filePtr
      modifies this, os
      ensures os.Valid() && Valid(os) && filePtr == handle
      ensures os.streams == old(os.streams) - DescriptorSet(old(HeldFd()))
      ensures os.owner == old(os.owner) - DescriptorSet(old(HeldFd()))
      ensures os.closed == old(os.closed) + ClosedBy(old(HeldFd()))
      ensures os.nextFd == old(os.nextFd)
    {
      if filePtr != null {
        filePtr.Destroy(os);
      }
      filePtr := handle;
    }

    /** Gives the next line when a handle is open; otherwise fails and leaves `out` as it was. */
    method ReadSource(os: Os, out: string) returns (ok: bool, out': string)
      requires os.Valid() && Valid(os)
      modifies os
      ensures os.Valid() && Valid(os)
      ensures ok <==> HeldFd() != InvalidFd
      ensures !ok ==> out' == out && os.streams == old(os.streams)
      ensures ok ==> && out' == LineOf(old(os.streams)[HeldFd()])
                     && os.streams == old(os.streams)[HeldFd() := RestAfterLine(old(os.streams)[HeldFd()])]
      ensures os.closed == old(os.closed) && os.owner == old(os.owner) && os.nextFd == old(os.nextFd)
    {
      out' := out;
      ok := false;
      if filePtr != null {
        var open := filePtr.IsOpen(os);
        if open {
          out' := filePtr.Read(os);
          ok := true;
        }
      }
    }
  }

  /** A source on a missing file: opening reports false and reading fails without touching `out`. */
  method MissingFileScenario(path: string, out: string) returns (openOk: bool, read: bool, out': string)
    ensures !openOk && !read && out' == out
  {
    var os := new Os(map[], map[], 4);
    var source := new FileTelemetrySource(path);
    openOk := source.OpenSource(os);
    read, out' := source.ReadSource(os, out);
  }
}
