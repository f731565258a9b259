/**
 * A move-only owner of one file descriptor (or of none, `-1`).  Moving
 * transfers the descriptor and leaves the source at `-1`; destruction closes
 * the descriptor only when there is one, so no descriptor is closed twice.
 */
module SafeFiles {
  import opened Posix

  class SafeFile {
    var filefd: int

    /** Either no descriptor, or one that the OS has open and records as owned by this handle. */
    ghost predicate Valid(os: Os)
      reads this, os
    {
      filefd == InvalidFd || (filefd in os.owner && os.owner[filefd] == this)
    }

    /**
     * Opens `path` for reading and writing; the handle is left at `-1` when
     * that fails.  The path reaches the OS as a C string, so it ends at its
     * first NUL.
     */
    constructor (path: string, os: Os)
      requires os.Valid()
      modifies os
      ensures os.Valid() && Valid(os)
      ensures filefd == InvalidFd <==> UpToNul(path) !in os.files || |old(os.streams)| >= os.maxOpen
      ensures filefd != InvalidFd ==> && filefd == old(os.nextFd) && filefd !in old(os.streams)
                                      && os.streams == old(os.streams)[filefd := os.files[UpToNul(path)]]
                                      && os.owner == old(os.owner)[filefd := this]
      ensures filefd == InvalidFd ==> os.streams == old(os.streams) && os.owner == old(os.owner)
      ensures os.nextFd == if filefd == InvalidFd then old(os.nextFd) else old(os.nextFd) + 1
      ensures os.closed == old(os.closed)
    {
      var fd := os.Open(UpToNul(path));
      filefd := fd;
      new;
      if fd != InvalidFd {
        os.owner := os.owner[fd := this];
      }
    }

    /** The move constructor: takes `other`'s descriptor and leaves `other` at `-1`. */
    constructor Move(other: SafeFile, os: Os)
      requires os.Valid() && other.Valid(os)
      modifies other, os
      ensures os.Valid() && Valid(os) && other.Valid(os)
      ensures filefd == old(other.filefd) && other.filefd == InvalidFd
      ensures os.owner == if filefd == InvalidFd then old(os.owner) else old(os.owner)[filefd := this]
      ensures os.streams == old(os.streams) && os.closed == old(os.closed) && os.nextFd == old(os.nextFd)
    {
      filefd := other.filefd;
      new;
      other.filefd := InvalidFd;
      if filefd != InvalidFd {
        os.owner := os.owner[filefd := this];
      }
    }

    /**
     * Move assignment.  Assigning a handle to itself changes nothing;
     * otherwise this handle's own descriptor, if any, is closed first.
     */
    method MoveAssign(other: SafeFile, os: Os)
      requires os.Valid() && Valid(os) && other.Valid(os)
      modifies this, other, os
      ensures os.Valid() && Valid(os) && other.Valid(os)
      ensures other == this ==> && filefd == old(filefd)
                                && os.streams == old(os.streams) && os.closed == old(os.closed)
                                && os.owner == old(os.owner)
      ensures other != this ==> && filefd == old(other.filefd) && other.filefd == InvalidFd
                                && os.closed == old(os.closed) + ClosedBy(old(filefd))
                                && os.streams == old(os.streams) - DescriptorSet(old(filefd))
                                && os.owner == if old(other.filefd) == InvalidFd
                                               then old(os.owner) - DescriptorSet(old(filefd))
                                               else (old(os.owner) - DescriptorSet(old(filefd)))[old(other.filefd) := this]
      ensures os.nextFd == old(os.nextFd)
    {
      if this != other {
        if filefd != InvalidFd {
          os.Close(filefd);
        }
        filefd := other.filefd;
        other.filefd := InvalidFd;
        if filefd != InvalidFd {
          os.owner := os.owner[filefd := this];
        }
      }
    }

    method IsOpen(os: Os) returns (open: bool)
      requires os.Valid() && Valid(os)
      ensures open <==> filefd != InvalidFd
      ensures open <==> filefd in os.streams
    {
      open := filefd != InvalidFd;
    }

    /**
     * Reads one byte at a time up to the next newline or the end of the
     * stream.  The newline is consumed and not returned; a handle without a
     * descriptor returns the empty string and reads nothing.
     */
    method Read(os: Os) returns (line: string)
      requires os.Valid() && Valid(os)
      modifies os
      ensures os.Valid() && Valid(os)
      ensures '\n' !in line
      ensures filefd == InvalidFd ==> line == "" && os.streams == old(os.streams)
      ensures filefd != InvalidFd ==> && line == LineOf(old(os.streams)[filefd])
                                      && os.streams == old(os.streams)[filefd := RestAfterLine(old(os.streams)[filefd])]
      ensures os.closed == old(os.closed) && os.owner == old(os.owner) && os.nextFd == old(os.nextFd)
    {
      line := "";
      if filefd != InvalidFd {
        ghost var start := os.streams[filefd];
        LineHasNoNewline(start);
        while true
          invariant os.Valid() && Valid(os) && filefd in os.streams
          invariant LineOf(start) == line + LineOf(os.streams[filefd])
          invariant RestAfterLine(start) == RestAfterLine(os.streams[filefd])
          invariant os.streams == old(os.streams)[filefd := os.streams[filefd]]
          invariant os.closed == old(os.closed) && os.owner == old(os.owner) && os.nextFd == old(os.nextFd)
          decreases |os.streams[filefd]|
        {
          ghost var before := os.streams[filefd];
          var n, ch := os.ReadByte(filefd);
          if n != 1 {
            break;
          }
          if ch == '\n' {
            break;
          }
          assert before == [ch] + before[1..];
          line := line + [ch];
        }
      }
    }

    /** The destructor: closes the descriptor if and only if there is one. */
    method Destroy(os: Os)
      requires os.Valid() && Valid(os)
      modifies os
      ensures os.Valid()
      ensures os.closed == old(os.closed) + ClosedBy(filefd)
      ensures os.streams == old(os.streams) - DescriptorSet(filefd)
      ensures os.owner == old(os.owner) - DescriptorSet(filefd) && os.nextFd == old(os.nextFd)
    {
      if filefd != InvalidFd {
        os.Close(filefd);
      }
    }
  }

  /**
   * Open a file, move the handle into a second one, then destroy both: the
   * descriptor, when there is one, is closed exactly once.
   */
  method MoveThenDestroyBoth(files: map<string, seq<char>>, path: string) returns (closes: multiset<int>, acquired: bool)
    ensures acquired <==> UpToNul(path) in files
    ensures acquired ==> closes == multiset{0}
    ensures !acquired ==> closes == multiset{}
  {
    var os := new Os(files, map[], 1);
    assert |os.streams| == 0;
    var first := new SafeFile(path, os);
    acquired := first.filefd != InvalidFd;
    assert acquired ==> first.filefd == 0;
    var second := new SafeFile.Move(first, os);
    assert first.filefd == InvalidFd && second.filefd == (if acquired then 0 else InvalidFd);
    first.Destroy(os);
    assert os.closed == multiset{};
    second.Destroy(os);
    closes := os.closed;
  }
}
