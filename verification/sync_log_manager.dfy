/**
 * The earlier, single-threaded manager: an unbounded list of records and a
 * list of owned sinks; routing writes every stored record to every sink.
 */
module SyncDispatcher {
  import opened Wrappers
  import opened LogMessages
  import opened SinkFactory
  import opened Fanout

  class SyncLogManager {
    var logs: seq<LogMessage>
    var sinks: seq<Option<SinkSpec>>
    /** Every write made to a sink so far, in the order made. */
    var trace: seq<Write>

    constructor ()
      ensures logs == [] && sinks == [] && trace == []
    {
      logs, sinks, trace := [], [], [];
    }

    /** Stores a copy of the record at the end; there is no limit and nothing is dropped. */
    method AddLog(log: LogMessage)
      modifies this`logs
      ensures logs == old(logs) + [log]
    {
      logs := logs + [log];
    }

    method AddSink(sink: Option<SinkSpec>)
      modifies this`sinks
      ensures sinks == old(sinks) + [sink]
    {
      sinks := sinks + [sink];
    }

    /**
     * Writes each stored record to each sink, record-major.  Every sink is
     * dereferenced once per stored record, so none may be null when there is
     * a record to route.  The records stay stored.
     */
    method RouteLogsForAllSinks()
      requires logs != [] ==> forall k :: 0 <= k < |sinks| ==> sinks[k].Some?
      modifies this`trace
      ensures trace == old(trace) + BatchWrites(sinks, logs)
      ensures forall k :: 0 <= k < |sinks| ==> Received(trace, k) == old(Received(trace, k)) + logs
    {
      var i := 0;
      while i < |logs|
        invariant 0 <= i <= |logs|
        invariant trace == old(trace) + BatchWrites(sinks, logs[..i])
      {
        var k := 0;
        while k < |sinks|
          invariant 0 <= k <= |sinks|
          invariant trace == old(trace) + BatchWrites(sinks, logs[..i]) + FanOutWrites(sinks[..k], logs[i])
        {
          assert sinks[..k + 1][..k] == sinks[..k];
          trace := trace + [Write(k, logs[i])];
          k := k + 1;
        }
        assert sinks[..k] == sinks;
        assert logs[..i + 1][..i] == logs[..i];
        i := i + 1;
      }
      assert logs[..i] == logs;
      forall k | 0 <= k < |sinks|
        ensures Received(trace, k) == old(Received(trace, k)) + logs
      {
        ReceivedAppend(old(trace), BatchWrites(sinks, logs), k);
        ReceivedBatch(sinks, logs, k);
      }
    }
  }

  /**
   * Routing with all sinks present writes record `i` to sink `k` at position
   * `i * |sinks| + k`: every sink gets record `i` before any sink gets record `i + 1`.
   */
  lemma {:induction false} RouteOrder(sinks: seq<Option<SinkSpec>>, logs: seq<LogMessage>, i: nat, k: nat)
    requires forall s :: 0 <= s < |sinks| ==> sinks[s].Some?
    requires i < |logs| && k < |sinks|
    ensures |BatchWrites(sinks, logs[..i])| == i * |sinks|
    ensures i * |sinks| + k < |BatchWrites(sinks, logs)|
    ensures BatchWrites(sinks, logs)[i * |sinks| + k] == Write(k, logs[i])
  {
    BatchLengthAllSinks(sinks, logs[..i]);
    BatchLogMajor(sinks, logs, i);
    FanOutAllSinks(sinks, logs[i]);
  }

  lemma {:induction false} BatchLengthAllSinks(sinks: seq<Option<SinkSpec>>, logs: seq<LogMessage>)
    requires forall s :: 0 <= s < |sinks| ==> sinks[s].Some?
    ensures |BatchWrites(sinks, logs)| == |logs| * |sinks|
  {
    if logs != [] {
      BatchLengthAllSinks(sinks, logs[..|logs| - 1]);
      FanOutAllSinks(sinks, logs[|logs| - 1]);
      assert |logs| * |sinks| == (|logs| - 1) * |sinks| + |sinks|;
    }
  }

  /** Routing twice without clearing delivers every stored record twice, to every sink. */
  method RouteTwice(sinkList: seq<Option<SinkSpec>>, records: seq<LogMessage>) returns (received: seq<seq<LogMessage>>)
    requires forall k :: 0 <= k < |sinkList| ==> sinkList[k].Some?
    ensures |received| == |sinkList|
    ensures forall k :: 0 <= k < |sinkList| ==> received[k] == records + records
  {
    var manager := new SyncLogManager();
    var i := 0;
    while i < |sinkList|
      invariant 0 <= i <= |sinkList| && manager.sinks == sinkList[..i]
      invariant manager.logs == [] && manager.trace == []
    {
      manager.AddSink(sinkList[i]);
      assert sinkList[..i + 1] == sinkList[..i] + [sinkList[i]];
      i := i + 1;
    }
    assert sinkList[..i] == sinkList;
    var j := 0;
    while j < |records|
      invariant 0 <= j <= |records| && manager.logs == records[..j]
      invariant manager.sinks == sinkList && manager.trace == []
    {
      manager.AddLog(records[j]);
      assert records[..j + 1] == records[..j] + [records[j]];
      j := j + 1;
    }
    assert records[..j] == records;
    manager.RouteLogsForAllSinks();
    manager.RouteLogsForAllSinks();
    var trace := manager.trace;
    received := seq(|sinkList|, k requires 0 <= k < |sinkList| => Received(trace, k));
  }
}
