/**
 * Choice of the output sink for a requested kind.  Whether a file can be
 * opened for appending is given by the set of paths that can be.
 */
module SinkFactory {
  import opened Wrappers

  datatype LogSinkType = Console | File | Socket

  /** A constructed sink: console output, or a file opened for appending at `path`. */
  datatype SinkSpec = ConsoleSink | FileSink(path: string)

  /** A factory call either returns a (possibly null) sink or throws with a message. */
  datatype Created = Returned(sink: Option<SinkSpec>) | Threw(what: string)

  const DefaultLogPath: string := "system.log"

  /** The path a file sink is opened on: the given one, or the default when none is given. */
  function FileSinkPath(filePath: string): (p: string)
    ensures p != []
    ensures filePath != [] ==> p == filePath
  {
    if filePath == [] then DefaultLogPath else filePath
  }

  /** Opening the file sink; it throws when the file cannot be opened. */
  function NewFileSink(path: string, openable: set<string>): (r: Created)
    ensures r.Returned? <==> path in openable
    ensures r.Returned? ==> r.sink == Some(FileSink(path))
    ensures r.Threw? ==> r.what == "Failed to open file: " + path
  {
    if path in openable then Returned(Some(FileSink(path)))
    else Threw("Failed to open file: " + path)
  }

  function CreateSink(kind: LogSinkType, filePath: string, openable: set<string>): (r: Created)
    ensures kind == Console ==> r == Returned(Some(ConsoleSink))
    ensures kind == Socket ==> r == Returned(None)
    ensures kind == File ==> r.Threw? || r == Returned(Some(FileSink(FileSinkPath(filePath))))
    ensures kind == File ==> (r.Threw? <==> FileSinkPath(filePath) !in openable)
  {
    match kind
    case Console => Returned(Some(ConsoleSink))
    case File => NewFileSink(FileSinkPath(filePath), openable)
    case _ => Returned(None)
  }

  /** Every file sink the factory returns names a non-empty path, and an empty request means `system.log`. */
  lemma CreatedFileSinkPath(filePath: string, openable: set<string>)
    requires CreateSink(File, filePath, openable).Returned?
    ensures CreateSink(File, filePath, openable).sink.Some?
    ensures CreateSink(File, filePath, openable).sink.value.path != []
    ensures filePath == [] ==> CreateSink(File, filePath, openable).sink.value.path == "system.log"
    ensures filePath != [] ==> CreateSink(File, filePath, openable).sink.value.path == filePath
  {
  }
}
