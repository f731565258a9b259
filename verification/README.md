# Logging system core — a Dafny model

This project models the core of a small C++ logging system:

- **Telemetry sources** read text lines from a file or from a Unix-domain socket. Each source goes through a move-only owner of one descriptor (`SafeFile`, `SafeSocket`).
- **Log records** (`LogMessage`) carry an application name, a context, a time point, a severity and a message. They render as one line:
  `<stamp> [<SEVERITY padded to 7>] [<app>::<context>] <message>`.
- **Policy severity levels** map to log types through `mapToLogType`.
- **A sink factory** builds a console sink, a file sink (default path `system.log`) or nothing.
- **A log manager** puts records into a bounded ring buffer. A worker drains the buffer and hands every record to every registered non-null sink, in registration order. On teardown the manager stops the worker only after the queue is empty.
- **The earlier synchronous manager** keeps every record and routes all of them to all sinks on request.

The files are:

- `ring_buffer.dfy` — the ring buffer, as a class over an array of optional slots. A ghost sequence gives its abstract contents.
- `log_message.dfy` — records, severity names and the text layout.
- `log_formatter.dfy` — the severity bridge.
- `sink_factory.dfy` — the factory.
- `fanout.dfy` — the writes a manager makes, as one global trace of `(sink index, record)` pairs. What each sink has received is read off that trace.
- `log_manager.dfy` — the threaded manager, as a class. The worker is one sequential step.
- `sync_log_manager.dfy` — the synchronous manager.
- `posix.dfy` — an abstract operating system: files, socket listeners, open descriptors with their unread bytes, and every `close` call.
- `safe_file.dfy`, `safe_socket.dfy` — the descriptor owners. Ghost ownership proves that no descriptor is closed twice.
- `file_source.dfy`, `socket_source.dfy` — the telemetry sources.
- `wrappers.dfy` — an `Option` type.

## Model

| member | source | states |
|---|---|---|
| RingBuffers.RingBuffer.constructor | inc/logger/RingBuffer.hpp:16-18 | A buffer for `capacity` items has `capacity + 1` empty slots, starts with head = tail = 0 and holds nothing |
| RingBuffers.RingBuffer.TryPush | inc/logger/RingBuffer.hpp:28-39 | Succeeds exactly when fewer than `capacity` items are held. On success the item is appended to the contents, written at the old head, and head advances modulo the slot count. A full buffer is left unchanged, slots included |
| RingBuffers.RingBuffer.TryPop | inc/logger/RingBuffer.hpp:41-51 | An empty buffer yields nothing and is unchanged. Otherwise it returns the oldest item (FIFO), drops it from the contents, clears its slot and advances tail modulo the slot count; the invariant is kept |
| RingBuffers.RingBuffer.IsEmpty | inc/logger/RingBuffer.hpp:53-56 | True exactly when nothing is held, which is exactly when head == tail |
| RingBuffers.RingBuffer.Capacity | inc/logger/RingBuffer.hpp:58-60 | Returns the capacity, which is one less than the number of slots |
| RingBuffers.RingBuffer.LiveCountIsLength | inc/logger/RingBuffer.hpp:9-12 | In every valid state `(head + size - tail) % size` equals the number of held items and never exceeds the capacity |
| RingBuffers.RingBuffer.FullIffAtCapacity | inc/logger/RingBuffer.hpp:30-31 | The source's fullness test `(head + 1) % size == tail` holds exactly when the buffer holds `capacity` items |
| RingBuffers.NextSlot | inc/logger/RingBuffer.hpp:30 | Advancing an index modulo the slot count wraps to 0 only past the last slot |
| RingBuffers.CapacityTwoScenario | inc/logger/RingBuffer.hpp:16-51 | Capacity 2: pushes of A and B succeed and a third is refused; pops then give A, B and nothing, and the buffer ends empty |
| LogMessages.NewLogMessage | src/logger/LogMessage.cpp:5-11 | Each field of the record is the corresponding argument |
| LogMessages.LogTypeToString | src/logger/LogMessage.cpp:15-22 | INFO is named "INFO", WARNING "WARNING" and ERROR "ERROR", each an if-and-only-if. No log type is named UNKNOWN. Every name fits the 7-character field and does not end in a space |
| LogMessages.LogTypeToStringInjective | src/logger/LogMessage.cpp:15-22 | Distinct log types have distinct names |
| LogMessages.PadRight | src/logger/LogMessage.cpp:30 | Left-justified padding to a width: length max(\|s\|, w), `s` as prefix, spaces after it, never truncated |
| LogMessages.TrimPadRight | src/logger/LogMessage.cpp:30 | Removing trailing spaces from a padded field gives back any name that does not end in a space |
| LogMessages.SeverityField | src/logger/LogMessage.cpp:30 | The bracketed severity field is exactly 7 characters, and trimming it gives the severity name back |
| LogMessages.Suffix | src/logger/LogMessage.cpp:29-32 | The layout after the stamp: its total length, and the position of each part (" [", severity field, "] [", app, "::", context, "] ", message) |
| LogMessages.Render | src/logger/LogMessage.cpp:24-35 | A rendered record is the rendered stamp followed by the layout above |
| LogMessages.ParseSeverity | src/logger/LogMessage.cpp:30 | A field parsed as a severity trims to that severity's name |
| LogMessages.SeverityRoundTrip | src/logger/LogMessage.cpp:29-32 | Reading back the 7 characters after the stamp and " [" gives the record's severity, for every record and stamp |
| LogMessages.NoTrailingNewline | src/logger/LogMessage.cpp:29-32 | The rendering adds no newline of its own: it ends in a newline only if the message does |
| LogFormatter.MapToLogType | inc/formatter/LogFormatter.hpp:10-16 | CRITICAL maps to ERROR, WARNING to WARNING and INFO to INFO, each in both directions |
| LogFormatter.LevelOf | inc/formatter/LogFormatter.hpp:10-16 | A right inverse: mapping the level of a log type gives that log type |
| LogFormatter.MapToLogTypeBijective | inc/formatter/LogFormatter.hpp:10-16 | `MapToLogType` and `LevelOf` are mutually inverse, so the bridge is a bijection |
| LogFormatter.MappedNameKnown | inc/formatter/LogFormatter.hpp:10-16 | Every policy level renders as ERROR, WARNING or INFO, never UNKNOWN |
| SinkFactory.FileSinkPath | src/sink/LogSinkFactory.cpp:12-14 | The file sink path is never empty, and it is the given path whenever one is given |
| SinkFactory.NewFileSink | src/sink/FileSinkImpl.cpp:4-9 | A file sink on an openable path is returned. Otherwise construction throws "Failed to open file: " followed by the path |
| SinkFactory.CreateSink | src/sink/LogSinkFactory.cpp:6-20 | CONSOLE gives a console sink and SOCKET gives null. FILE gives a file sink on the given path (`system.log` when empty), or throws exactly when that path cannot be opened |
| SinkFactory.CreatedFileSinkPath | src/sink/LogSinkFactory.cpp:12-14 | A returned file sink is non-null, with a non-empty path: `system.log` for an empty request, else the request |
| Fanout.FanOutWritesOrdered | src/logger/LogManager.cpp:42-46 | Fanning out one record writes only that record, only to registered non-null sinks, in strictly increasing registration order, at most once per sink |
| Fanout.ReceivedFanOut | src/logger/LogManager.cpp:42-46 | One record reaches each non-null sink exactly once and no null or unregistered sink |
| Fanout.ReceivedUnnamed | src/logger/LogManager.cpp:20-22 | A sink that no write names has received nothing (a newly registered sink starts empty) |
| Fanout.FanOutAllSinks | src/LogManager.cpp:17-19 | With no null sink, one record goes to every sink, sink 0 first, one write per sink |
| Fanout.BatchLogMajor | src/logger/LogManager.cpp:41-47 | Draining a batch is record-major: all writes of record i come after those of earlier records and before those of later ones |
| Fanout.ReceivedBatch | src/logger/LogManager.cpp:41-47 | A drained batch reaches each non-null sink whole and in order, and reaches no null sink |
| Fanout.BatchWritesNameSinks | src/logger/LogManager.cpp:42-46 | Every write of a drained batch names a registered, non-null sink |
| Dispatcher.ReceivedAfterDelivery | src/logger/LogManager.cpp:41-47 | After a batch is delivered, a non-null sink has received its earlier records followed by the batch, and a null sink nothing more |
| Dispatcher.SinkStaysUpToDate | src/logger/LogManager.cpp:41-47 | A non-null sink that had received exactly the records popped since its registration still has, after a popped batch is delivered. A null sink still has received nothing |
| Dispatcher.DeliveryKeepsSinksUpToDate | src/logger/LogManager.cpp:41-47 | Popping and delivering a batch preserves the delivery invariant for all sinks. Every write names a registered sink. Each non-null sink has received exactly the records popped since it was registered, in order, and each null sink nothing |
| Dispatcher.LogManager.constructor | src/logger/LogManager.cpp:5-9 | A new manager has an empty queue of the given capacity, no sinks, no stop request and no writes |
| Dispatcher.LogManager.AddLog | src/logger/LogManager.cpp:12-18 | A record is queued at the back exactly when the queue has room. Otherwise it is silently dropped and nothing changes. Sinks and writes are untouched |
| Dispatcher.LogManager.AddSink | src/logger/LogManager.cpp:20-22 | The sink (possibly null) is appended after all earlier sinks and registered at the current number of popped records; the delivery invariant is kept |
| Dispatcher.LogManager.FanOut | src/logger/LogManager.cpp:42-46 | The inner loop appends exactly the fan-out writes of one record to the trace |
| Dispatcher.LogManager.PopAndFanOut | src/logger/LogManager.cpp:41-46 | One pass pops the oldest record, if there is one, and appends its fan-out; with an empty queue nothing changes |
| Dispatcher.LogManager.Drain | src/logger/LogManager.cpp:41-47 | The drain empties the queue, records what it popped in order, appends the record-major writes of the old queue contents, and keeps the delivery invariant |
| Dispatcher.LogManager.PopAll | src/logger/LogManager.cpp:41-47 | The `while (tryPop)` loop: the queue ends empty, its old contents are popped in order, and their record-major writes are appended |
| Dispatcher.LogManager.WorkerStep | src/logger/LogManager.cpp:24-49 | A wake-up blocks exactly when no stop is requested and the queue is empty. It exits exactly when a stop is requested and the queue is empty. Otherwise it drains everything queued |
| Dispatcher.LogManager.Teardown | src/logger/LogManager.cpp:51-62 | After teardown every accepted record has been popped and the queue is empty. Each non-null sink received everything still queued, in order, and in all has received exactly the accepted records from its registration on. Null sinks received nothing |
| Dispatcher.RegisterAll | src/logger/LogManager.cpp:20-22 | Registering a list of sinks one by one gives exactly that list, in order |
| Dispatcher.OfferAll | src/logger/LogManager.cpp:12-18 | Offering records to an idle empty manager queues the first `capacity` of them and drops the rest |
| Dispatcher.DeliverAll | src/logger/LogManager.cpp:5-62 | Construct, register, offer, tear down: each non-null sink receives exactly the first `capacity` records in order, and each null sink nothing |
| Dispatcher.DrainedOne | src/logger/LogManager.cpp:12-47 | With one sink, one record offered and one worker wake-up, the wake-up drains: the record is popped and the queue is empty |
| Dispatcher.LateSinkScenario | src/logger/LogManager.cpp:20-62 | A sink registered after the worker drained record a never receives it. The first sink gets a and b, the later sink only b |
| SyncDispatcher.SyncLogManager.constructor | inc/LogManager.hpp:13 | A new synchronous manager has no records, no sinks and no writes |
| SyncDispatcher.SyncLogManager.AddLog | src/LogManager.cpp:4-6 | The record is appended; there is no bound and nothing is dropped |
| SyncDispatcher.SyncLogManager.AddSink | src/LogManager.cpp:10-12 | The sink is appended after all earlier sinks |
| SyncDispatcher.SyncLogManager.RouteLogsForAllSinks | src/LogManager.cpp:15-21 | Routing appends the record-major writes of all stored records, and each sink receives every stored record in order. Records stay stored. Null sinks are excluded only when there is a record to route |
| SyncDispatcher.RouteOrder | src/LogManager.cpp:15-21 | Record i reaches sink k at trace position i·\|sinks\| + k |
| SyncDispatcher.BatchLengthAllSinks | src/LogManager.cpp:15-21 | Routing n records to s sinks makes exactly n·s writes |
| SyncDispatcher.RouteTwice | src/LogManager.cpp:15-21 | Records are never cleared, so routing twice gives every sink every record twice |
| Posix.Os.Open | src/SafeFile.cpp:26 | `open` fails with -1 exactly when the file is missing or the descriptor limit is reached. Otherwise it returns the next fresh descriptor, positioned at the file's start |
| Posix.Os.Socket | src/raii/SafeSocket.cpp:31 | `socket` fails with -1 exactly at the descriptor limit. Otherwise it returns a fresh, unconnected descriptor |
| Posix.Os.Connect | src/raii/SafeSocket.cpp:40 | `connect` returns 0 exactly when a listener is at the address, whose bytes then become readable; otherwise -1 |
| Posix.Os.ReadByte | src/SafeFile.cpp:40 | A one-byte `read` returns 1 and the next byte, or 0 at end of stream with nothing consumed |
| Posix.Os.Close | src/SafeFile.cpp:52 | `close` needs an open descriptor, removes it and records the close, so no descriptor can be closed twice |
| Posix.LineHasNoNewline | src/SafeFile.cpp:34-48 | A line read never contains a newline |
| Posix.LineSplitAtNewline | src/SafeFile.cpp:34-48 | When the input holds a newline, line + newline + the rest is the whole input, so reading loses nothing but the terminator |
| Posix.LineWithoutNewline | src/SafeFile.cpp:34-48 | Without a newline the line is the whole input and nothing remains after it |
| Posix.UpToNul | src/raii/SafeSocket.cpp:38 | `c_str()` as seen by C is the longest NUL-free prefix of the path |
| Posix.SocketAddress | src/raii/SafeSocket.cpp:35-38 | The socket address is a NUL-free prefix of the path of at most 107 bytes. It stops only at a NUL or at 107 bytes, and equals any short NUL-free path |
| SafeFiles.SafeFile.constructor | src/SafeFile.cpp:25-28 | The path reaches `open` cut at its first NUL. The handle is -1 exactly when that open fails. Otherwise it owns a fresh descriptor on the file's contents. Nothing is closed |
| SafeFiles.SafeFile.Move | src/SafeFile.cpp:9-11 | The new handle takes over the descriptor and its ownership; the source becomes -1; nothing is opened or closed |
| SafeFiles.SafeFile.MoveAssign | src/SafeFile.cpp:13-22 | Self-assignment changes nothing. Otherwise the handle's own descriptor, if any, is closed exactly once and leaves the open and owned sets. It then takes the other's descriptor and its ownership, and the other becomes -1. Nothing else changes |
| SafeFiles.SafeFile.IsOpen | src/SafeFile.cpp:30-32 | True exactly when the handle holds a descriptor, which is then open in the OS |
| SafeFiles.SafeFile.Read | src/SafeFile.cpp:34-48 | Returns the bytes up to the next newline or end of stream and consumes the newline. A closed handle returns "" and reads nothing |
| SafeFiles.SafeFile.Destroy | src/SafeFile.cpp:50-55 | The destructor closes the descriptor exactly once if there is one, and closes nothing otherwise |
| SafeFiles.MoveThenDestroyBoth | src/SafeFile.cpp:9-55 | Open, move, destroy both: the descriptor is closed exactly once if the open succeeded, and nothing is closed if it failed |
| SafeSockets.Connected | src/raii/SafeSocket.cpp:30-49 | The descriptor is kept exactly when `socket` succeeds and a listener is at the truncated address. A socket whose `connect` fails is closed exactly once |
| SafeSockets.SafeSocket.constructor | src/raii/SafeSocket.cpp:30-49 | The handle owns a connected descriptor exactly when socket and connect both succeed. Otherwise it is -1 and leaks nothing: a created socket is closed once |
| SafeSockets.SafeSocket.Move | src/raii/SafeSocket.cpp:13-15 | The new handle takes over the descriptor; the source becomes -1 |
| SafeSockets.SafeSocket.MoveAssign | src/raii/SafeSocket.cpp:18-27 | Self-assignment changes nothing. Otherwise its own descriptor, if any, is closed once and leaves the open and owned sets. It takes the other's descriptor and its ownership, and the other becomes -1. Nothing else changes |
| SafeSockets.SafeSocket.IsOpen | src/raii/SafeSocket.cpp:52-54 | True exactly when the handle holds an open descriptor |
| SafeSockets.SafeSocket.Read | src/raii/SafeSocket.cpp:56-69 | Returns the bytes up to the next newline or end of stream and consumes the newline. A closed handle returns "" |
| SafeSockets.SafeSocket.Destroy | src/raii/SafeSocket.cpp:71-75 | The descriptor is closed exactly once if there is one |
| SafeSockets.ConnectRefused | src/raii/SafeSocket.cpp:36-44 | With no listener the handle is not open, the created socket was closed exactly once, and no descriptor stays open |
| FileSources.FileTelemetrySource.constructor | src/sources/FileTelemetrySourceImpl.cpp:5-7 | A new source remembers its path and holds no handle |
| FileSources.FileTelemetrySource.OpenSource | src/sources/FileTelemetrySourceImpl.cpp:9-19 | Opens a fresh handle first and succeeds exactly when the file exists and a descriptor is free. Then it destroys the old handle: its descriptor is closed once and leaves the open and owned sets. The new descriptor, if any, is open on the file and owned by the new handle; nothing else changes |
| FileSources.FileTelemetrySource.Adopt | src/sources/FileTelemetrySourceImpl.cpp:11 | Replacing the held handle destroys the old one: its descriptor, if any, is closed once and removed; nothing else changes |
| FileSources.FileTelemetrySource.ReadSource | src/sources/FileTelemetrySourceImpl.cpp:21-27 | Succeeds exactly when an open handle is held, and then yields the next line and consumes it. Otherwise it fails and `out` is unchanged. Ownership and closes are unchanged |
| FileSources.MissingFileScenario | src/sources/FileTelemetrySourceImpl.cpp:9-27 | On a missing file opening reports false, and a later read fails without touching `out` |
| SocketSources.SocketTelemetrySource.constructor | src/sources/SocketTelemetrySourceImpl.cpp:5-7 | A new source remembers its path and holds no handle |
| SocketSources.SocketTelemetrySource.OpenSource | src/sources/SocketTelemetrySourceImpl.cpp:9-15 | Connects a fresh handle first and succeeds exactly when a descriptor is free and a listener is at the truncated address. A refused socket is closed once. Then the old handle is destroyed: its descriptor is closed once and removed. Nothing else changes |
| SocketSources.SocketTelemetrySource.Adopt | src/sources/SocketTelemetrySourceImpl.cpp:11 | Replacing the held handle destroys the old one: its descriptor, if any, is closed once and removed; nothing else changes |
| SocketSources.SocketTelemetrySource.ReadSource | src/sources/SocketTelemetrySourceImpl.cpp:17-23 | Succeeds exactly when a connected handle is held, and then yields the next line and consumes it. Otherwise it fails and `out` is unchanged. Ownership and closes are unchanged |
| SocketSources.ReadLinesScenario | src/sources/SocketTelemetrySourceImpl.cpp:9-23 | Against a peer sending "a\n\nb", four reads all succeed and give "a", "", "b" and "" |

## Left out

- Threads, the mutexes, the condition variable and the atomic stop flag are not modelled. Each manager call is atomic. The worker is one sequential step (`WorkerStep`), and teardown steps it until it exits. A lost wake-up between `addLog`'s notify and the worker's wait is outside the model, and so is every interleaving other than the sequential ones.
- Dispatcher.DeliverAll: covers only the schedule where the worker does not run before teardown. Under other schedules, including the one in `LateSinkScenario`, the worker drains earlier and fewer records are dropped. Every non-null sink still receives, in order, exactly the accepted records popped after it was registered: the `Valid` invariant and `Teardown`'s contract state this for every schedule of the sequential calls.
- The timestamp clock and `localtime`/`put_time` rendering are not modelled. A record's time point is an integer, and `Render` takes the rendered stamp as a string.
- The "UNKNOWN" branch of `LogTypeToString` cannot be reached with the three declared log types, so it is not modelled. The `default` branches of `mapToLogType` and `createSink` are reachable and modelled: INFO maps to INFO and SOCKET gives a null sink through them.
- The `LogFormatter` class template (`formatDataToLogMsg`, `msgDescription`) and the CPU/GPU/RAM policies use floating-point thresholds and parsing, and are not part of this model. Only the `mapToLogType` bridge is.
- The sinks' own output (console `cout`, the file sink's `ofstream` and its `endl`) is not modelled. A sink write is an entry `(sink index, record)` in the manager's write trace.
- The operating system is abstract. Descriptors are never reused. `open`, `socket` and `read` fail only as described: a missing file, a descriptor limit, end of stream. Read errors and signals are not modelled, and file bytes are characters.
- SyncDispatcher.SyncLogManager.RouteLogsForAllSinks: requires every sink to be non-null when at least one record is stored, because the source then dereferences each sink unchecked. That call is undefined behaviour in the source.
- Ghost descriptor ownership (`Os.owner`) stands in for `unique_ptr`/RAII ownership. Copies are deleted in the source and cannot be expressed in the model at all.
- The message printed to `cerr` when a file source fails to open is not modelled (only its `false` result is).
- `app/main.cpp`, the header-only sink classes and the older duplicate file sink and file source are not part of this model.
- RingBuffers.RingBuffer.constructor: the slot count `capacity + 1` is a `size_t` in the source, and it wraps to 0 at the largest capacity, after which `tryPush` divides by zero. The model uses unbounded naturals, so this overflow is not modelled.
- NewLogMessage: the constructor's default arguments (the current time and an empty message) are not modelled. Every record is built with both given explicitly, since the clock is a parameter.
