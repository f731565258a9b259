/**
 * The writes a manager makes to its sinks, as one global sequence in the
 * order they happen.  What one sink has received is read off that sequence.
 */
module Fanout {
  import opened Wrappers
  import opened LogMessages
  import opened SinkFactory

  /** One `write` call: `record` handed to the sink registered at position `sink`. */
  datatype Write = Write(sink: nat, record: LogMessage)

  /** The writes one record causes: every non-null sink, in registration order. */
  function FanOutWrites(sinks: seq<Option<SinkSpec>>, m: LogMessage): (w: seq<Write>)
  {
    if sinks == [] then []
    else
      var last := |sinks| - 1;
      FanOutWrites(sinks[..last], m) + (if sinks[last].Some? then [Write(last, m)] else [])
  }

  /** The writes a batch of records causes: record after record, each to all sinks. */
  function BatchWrites(sinks: seq<Option<SinkSpec>>, msgs: seq<LogMessage>): (w: seq<Write>)
  {
    if msgs == [] then []
    else BatchWrites(sinks, msgs[..|msgs| - 1]) + FanOutWrites(sinks, msgs[|msgs| - 1])
  }

  /**
   * The fan-out of one record writes that record only, once to each sink it
   * names, to non-null sinks only, and in increasing registration order.
   */
  lemma {:induction false} FanOutWritesOrdered(sinks: seq<Option<SinkSpec>>, m: LogMessage)
    ensures |FanOutWrites(sinks, m)| <= |sinks|
    ensures forall i :: 0 <= i < |FanOutWrites(sinks, m)| ==>
              var w := FanOutWrites(sinks, m)[i];
              w.record == m && w.sink < |sinks| && sinks[w.sink].Some?
    ensures forall i, j :: 0 <= i < j < |FanOutWrites(sinks, m)| ==>
              FanOutWrites(sinks, m)[i].sink < FanOutWrites(sinks, m)[j].sink
  {
    if sinks != [] {
      FanOutWritesOrdered(sinks[..|sinks| - 1], m);
    }
  }

  /** The records the sink at position `k` was written, in order. */
  function Received(trace: seq<Write>, k: nat): (r: seq<LogMessage>)
    ensures |r| <= |trace|
  {
    if trace == [] then []
    else
      var w := trace[|trace| - 1];
      Received(trace[..|trace| - 1], k) + (if w.sink == k then [w.record] else [])
  }

  lemma {:induction false} ReceivedAppend(a: seq<Write>, b: seq<Write>, k: nat)
    ensures Received(a + b, k) == Received(a, k) + Received(b, k)
  {
    if b != [] {
      var b' := b[..|b| - 1];
      assert (a + b)[..|a + b| - 1] == a + b';
      ReceivedAppend(a, b', k);
    } else {
      assert a + b == a;
    }
  }

  /** A sink that no write names has received nothing. */
  lemma {:induction false} ReceivedUnnamed(trace: seq<Write>, k: nat)
    requires forall i :: 0 <= i < |trace| ==> trace[i].sink != k
    ensures Received(trace, k) == []
  {
    if trace != [] {
      ReceivedUnnamed(trace[..|trace| - 1], k);
    }
  }

  /** One record reaches each non-null sink exactly once and reaches no null sink. */
  lemma {:induction false} ReceivedFanOut(sinks: seq<Option<SinkSpec>>, m: LogMessage, k: nat)
    ensures Received(FanOutWrites(sinks, m), k) == if k < |sinks| && sinks[k].Some? then [m] else []
  {
    if sinks != [] {
      var last := |sinks| - 1;
      var init := sinks[..last];
      var tail := if sinks[last].Some? then [Write(last, m)] else [];
      assert FanOutWrites(sinks, m) == FanOutWrites(init, m) + tail;
      ReceivedFanOut(init, m, k);
      ReceivedAppend(FanOutWrites(init, m), tail, k);
      ReceivedSingle(tail, k);
      if k < last {
        assert init[k] == sinks[k];
      }
    }
  }

  lemma ReceivedSingle(t: seq<Write>, k: nat)
    requires |t| <= 1
    ensures Received(t, k) == if |t| == 1 && t[0].sink == k then [t[0].record] else []
  {
    if |t| == 1 {
      assert t[..0] == [];
    }
  }

  /** With no null sink, one record is written to every sink, sink 0 first. */
  lemma {:induction false} FanOutAllSinks(sinks: seq<Option<SinkSpec>>, m: LogMessage)
    requires forall k :: 0 <= k < |sinks| ==> sinks[k].Some?
    ensures |FanOutWrites(sinks, m)| == |sinks|
    ensures forall k :: 0 <= k < |sinks| ==> FanOutWrites(sinks, m)[k] == Write(k, m)
  {
    if sinks != [] {
      FanOutAllSinks(sinks[..|sinks| - 1], m);
    }
  }

  lemma {:induction false} BatchAppend(sinks: seq<Option<SinkSpec>>, a: seq<LogMessage>, b: seq<LogMessage>)
    ensures BatchWrites(sinks, a + b) == BatchWrites(sinks, a) + BatchWrites(sinks, b)
  {
    if b == [] {
      assert a + b == a;
    } else {
      var b', x := b[..|b| - 1], b[|b| - 1];
      var ab := a + b;
      assert ab[..|ab| - 1] == a + b' && ab[|ab| - 1] == x;
      assert BatchWrites(sinks, ab) == BatchWrites(sinks, a + b') + FanOutWrites(sinks, x);
      assert BatchWrites(sinks, b) == BatchWrites(sinks, b') + FanOutWrites(sinks, x);
      BatchAppend(sinks, a, b');
    }
  }

  /**
   * Log-major order: every write for record `i` comes after all writes for
   * the records before it and before all writes for the records after it.
   */
  lemma BatchLogMajor(sinks: seq<Option<SinkSpec>>, msgs: seq<LogMessage>, i: nat)
    requires i < |msgs|
    ensures BatchWrites(sinks, msgs)
         == BatchWrites(sinks, msgs[..i]) + FanOutWrites(sinks, msgs[i]) + BatchWrites(sinks, msgs[i + 1..])
  {
    assert msgs == msgs[..i] + [msgs[i]] + msgs[i + 1..];
    BatchAppend(sinks, msgs[..i] + [msgs[i]], msgs[i + 1..]);
    BatchAppend(sinks, msgs[..i], [msgs[i]]);
    assert [msgs[i]][..0] == [];
  }

  /** A batch reaches each non-null sink whole and in order, and reaches no null sink. */
  lemma {:induction false} ReceivedBatch(sinks: seq<Option<SinkSpec>>, msgs: seq<LogMessage>, k: nat)
    ensures Received(BatchWrites(sinks, msgs), k) == if k < |sinks| && sinks[k].Some? then msgs else []
  {
    if msgs != [] {
      var init, m := msgs[..|msgs| - 1], msgs[|msgs| - 1];
      var present := k < |sinks| && sinks[k].Some?;
      calc {
        Received(BatchWrites(sinks, msgs), k);
        { assert BatchWrites(sinks, msgs) == BatchWrites(sinks, init) + FanOutWrites(sinks, m);
          ReceivedAppend(BatchWrites(sinks, init), FanOutWrites(sinks, m), k); }
        Received(BatchWrites(sinks, init), k) + Received(FanOutWrites(sinks, m), k);
        { ReceivedBatch(sinks, init, k); ReceivedFanOut(sinks, m, k); }
        (if present then init else []) + (if present then [m] else []);
      }
      if present {
        assert init + [m] == msgs;
      }
    }
  }

  /** Every write of a batch names a non-null sink. */
  lemma {:induction false} BatchWritesNameSinks(sinks: seq<Option<SinkSpec>>, msgs: seq<LogMessage>)
    ensures forall i :: 0 <= i < |BatchWrites(sinks, msgs)| ==>
              BatchWrites(sinks, msgs)[i].sink < |sinks| && sinks[BatchWrites(sinks, msgs)[i].sink].Some?
  {
    if msgs != [] {
      BatchWritesNameSinks(sinks, msgs[..|msgs| - 1]);
      FanOutWritesOrdered(sinks, msgs[|msgs| - 1]);
    }
  }
}
