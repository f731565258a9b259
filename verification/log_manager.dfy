/**
 * The dispatcher: a bounded queue of records, an ordered list of owned sinks
 * (null entries allowed) and a stop flag.  The background worker is modelled
 * as a sequential step: one wake-up of the processing loop.  Teardown sets the
 * stop flag and then steps the worker until it exits.  Locking, the condition
 * variable and the thread itself are not modelled; each call is atomic.
 */
module Dispatcher {
  import opened Wrappers
  import opened LogMessages
  import opened RingBuffers
  import opened SinkFactory
  import opened Fanout

  /** What one wake-up of the worker does. */
  datatype WorkerStep =
    | Blocked   // nothing queued and no stop requested: the wait does not return
    | Exited    // stop requested and nothing queued: the loop ends
    | Drained   // the queue was emptied into the sinks

  /**
   * Every write names a registered sink.  The sink at position `k` was
   * registered when `since[k]` records had been popped; if it is non-null it
   * has received exactly the records popped from then on, in order, and a
   * null sink has received nothing.
   */
  ghost predicate SinksUpToDate(sinks: seq<Option<SinkSpec>>, since: seq<nat>, trace: seq<Write>, popped: seq<LogMessage>)
  {
    && |since| == |sinks|
    && (forall i :: 0 <= i < |trace| ==> trace[i].sink < |sinks|)
    && forall k :: 0 <= k < |sinks| ==>
         && since[k] <= |popped|
         && Received(trace, k) == if sinks[k].Some? then popped[since[k]..] else []
  }

  /** What sink `k` receives from delivering `batch`: the whole batch if it is a sink, nothing if null. */
  lemma ReceivedAfterDelivery(sinks: seq<Option<SinkSpec>>, trace: seq<Write>, batch: seq<LogMessage>, k: nat)
    requires k < |sinks|
    ensures Received(trace + BatchWrites(sinks, batch), k) == Received(trace, k) + if sinks[k].Some? then batch else []
  {
    ReceivedAppend(trace, BatchWrites(sinks, batch), k);
    ReceivedBatch(sinks, batch, k);
  }

  /** Dropping a prefix of `popped` commutes with appending `batch`. */
  lemma DropAppend<T>(popped: seq<T>, batch: seq<T>, n: nat)
    requires n <= |popped|
    ensures (popped + batch)[n..] == popped[n..] + batch
  {
  }

  /** Sink `k` is still up to date after `batch` is popped and delivered. */
  lemma SinkStaysUpToDate(sinks: seq<Option<SinkSpec>>, n: nat, trace: seq<Write>, popped: seq<LogMessage>, batch: seq<LogMessage>, k: nat)
    requires k < |sinks| && n <= |popped|
    requires Received(trace, k) == if sinks[k].Some? then popped[n..] else []
    ensures Received(trace + BatchWrites(sinks, batch), k) == if sinks[k].Some? then (popped + batch)[n..] else []
  {
    ReceivedAfterDelivery(sinks, trace, batch, k);
    if sinks[k].Some? {
      DropAppend(popped, batch, n);
    } else {
      assert Received(trace, k) + [] == Received(trace, k);
    }
  }

  /** Delivering `batch` after popping it keeps every sink up to date. */
  lemma DeliveryKeepsSinksUpToDate(sinks: seq<Option<SinkSpec>>, since: seq<nat>, trace: seq<Write>, popped: seq<LogMessage>, batch: seq<LogMessage>)
    requires SinksUpToDate(sinks, since, trace, popped)
    ensures SinksUpToDate(sinks, since, trace + BatchWrites(sinks, batch), popped + batch)
  {
    var t := trace + BatchWrites(sinks, batch);
    BatchWritesNameSinks(sinks, batch);
    assert forall i :: 0 <= i < |t| ==> t[i].sink < |sinks| by {
      forall i | 0 <= i < |t|
        ensures t[i].sink < |sinks|
      {
        if i >= |trace| {
          assert t[i] == BatchWrites(sinks, batch)[i - |trace|];
        }
      }
    }
    forall k | 0 <= k < |sinks|
      ensures && since[k] <= |popped + batch|
              && Received(t, k) == if sinks[k].Some? then (popped + batch)[since[k]..] else []
    {
      SinkStaysUpToDate(sinks, since[k], trace, popped, batch, k);
    }
  }

  /** Popping one more record of `batch` extends the writes by that record's fan-out. */
  lemma BatchStep(sinks: seq<Option<SinkSpec>>, batch: seq<LogMessage>, done: nat)
    requires done < |batch|
    ensures batch[..done + 1] == batch[..done] + [batch[done]]
    ensures batch[done + 1..] == batch[done..][1..]
    ensures BatchWrites(sinks, batch[..done + 1]) == BatchWrites(sinks, batch[..done]) + FanOutWrites(sinks, batch[done])
  {
    assert batch[..done + 1][..done] == batch[..done];
  }

  class LogManager {
    const queue: RingBuffer<LogMessage>
    var stopFlag: bool
    var sinks: seq<Option<SinkSpec>>
    /** Every write made to a sink so far, in the order made. */
    var trace: seq<Write>
    /** Every record the queue accepted, in acceptance order. */
    ghost var accepted: seq<LogMessage>
    /** Every record the worker took off the queue, in that order. */
    ghost var popped: seq<LogMessage>
    /** For each sink, how many records had been popped when it was registered. */
    ghost var since: seq<nat>

    ghost predicate Valid()
      reads this, queue, queue.buffer
    {
      && queue.Valid()
      && accepted == popped + queue.Contents
      && SinksUpToDate(sinks, since, trace, popped)
    }

    constructor (capacity: nat)
      ensures Valid() && fresh(queue) && fresh(queue.buffer)
      ensures queue.Cap == capacity && queue.Contents == []
      ensures !stopFlag && sinks == [] && trace == []
      ensures accepted == [] && popped == [] && since == []
    {
      queue := new RingBuffer<LogMessage>(capacity);
      stopFlag := false;
      sinks := [];
      trace := [];
      accepted := [];
      popped := [];
      since := [];
    }

    /** Offers a record; on a full queue it is dropped and nothing changes. */
    method AddLog(msg: LogMessage)
      requires Valid()
      modifies this, queue, queue.buffer
      ensures Valid()
      ensures |old(queue.Contents)| < queue.Cap ==> && queue.Contents == old(queue.Contents) + [msg]
                                                    && accepted == old(accepted) + [msg]
      ensures |old(queue.Contents)| >= queue.Cap ==> && queue.Contents == old(queue.Contents)
                                                     && accepted == old(accepted)
      ensures sinks == old(sinks) && trace == old(trace) && stopFlag == old(stopFlag)
      ensures popped == old(popped) && since == old(since)
    {
      var ok := queue.TryPush(msg);
      if ok {
        accepted := accepted + [msg];
      }
    }

    /** Registers a sink (possibly null) after all earlier ones. */
    method AddSink(sink: Option<SinkSpec>)
      requires Valid()
      modifies this
      ensures Valid()
      ensures sinks == old(sinks) + [sink] && since == old(since) + [|popped|]
      ensures trace == old(trace) && stopFlag == old(stopFlag)
      ensures accepted == old(accepted) && popped == old(popped)
    {
      sinks := sinks + [sink];
      since := since + [|popped|];
      ReceivedUnnamed(trace, |sinks| - 1);
      assert forall k :: 0 <= k < |sinks| - 1 ==> sinks[k] == old(sinks)[k] && since[k] == old(since)[k];
    }

    /** Hands one record to every non-null sink, in registration order. */
    method FanOut(msg: LogMessage)
      modifies this`trace
      ensures trace == old(trace) + FanOutWrites(sinks, msg)
    {
      var i := 0;
      while i < |sinks|
        invariant 0 <= i <= |sinks|
        invariant trace == old(trace) + FanOutWrites(sinks[..i], msg)
      {
        assert sinks[..i + 1][..i] == sinks[..i];
        if sinks[i].Some? {
          trace := trace + [Write(i, msg)];
        }
        i := i + 1;
      }
      assert sinks[..i] == sinks;
    }

    /** The inner loop of the worker: pop until empty, fanning each record out. */
    method Drain()
      requires Valid()
      modifies this, queue, queue.buffer
      ensures Valid()
      ensures queue.Contents == []
      ensures popped == old(popped) + old(queue.Contents)
      ensures trace == old(trace) + BatchWrites(sinks, old(queue.Contents))
      ensures sinks == old(sinks) && since == old(since) && stopFlag == old(stopFlag) && accepted == old(accepted)
    {
      ghost var batch := queue.Contents;
      PopAll();
      DeliveryKeepsSinksUpToDate(sinks, since, old(trace), old(popped), batch);
    }

    /** The loop of the drain, on the queue, the popped records and the writes alone. */
    method PopAll()
      requires queue.Valid()
      modifies this`popped, this`trace, queue, queue.buffer
      ensures queue.Valid() && queue.Contents == []
      ensures popped == old(popped) + old(queue.Contents)
      ensures trace == old(trace) + BatchWrites(sinks, old(queue.Contents))
    {
      ghost var batch := queue.Contents;
      ghost var done := 0;
      while true
        invariant queue.Valid()
        invariant 0 <= done <= |batch|
        invariant queue.Contents == batch[done..]
        invariant popped == old(popped) + batch[..done]
        invariant trace == old(trace) + BatchWrites(sinks, batch[..done])
        decreases |queue.Contents|
      {
        var more := PopAndFanOut();
        if !more {
          break;
        }
        BatchStep(sinks, batch, done);
        done := done + 1;
      }
      assert batch[..done] == batch;
    }

    /** One pass of the inner loop: pop the oldest record, if any, and fan it out. */
    method PopAndFanOut() returns (more: bool)
      requires queue.Valid()
      modifies this`popped, this`trace, queue, queue.buffer
      ensures queue.Valid()
      ensures more <==> old(queue.Contents) != []
      ensures more ==> && queue.Contents == old(queue.Contents)[1..]
                       && popped == old(popped) + [old(queue.Contents)[0]]
                       && trace == old(trace) + FanOutWrites(sinks, old(queue.Contents)[0])
      ensures !more ==> queue.Contents == old(queue.Contents) && popped == old(popped) && trace == old(trace)
    {
      var msg := queue.TryPop();
      if msg.None? {
        return false;
      }
      popped := popped + [msg.value];
      FanOut(msg.value);
      return true;
    }

    /** One wake-up of the processing loop. */
    method WorkerStep() returns (step: WorkerStep)
      requires Valid()
      modifies this, queue, queue.buffer
      ensures Valid()
      ensures step == Blocked <==> !stopFlag && old(queue.Contents) == []
      ensures step == Exited <==> stopFlag && old(queue.Contents) == []
      ensures step != Drained ==> && queue.Contents == old(queue.Contents)
                                  && trace == old(trace) && popped == old(popped)
      ensures step == Drained ==> && queue.Contents == []
                                  && popped == old(popped) + old(queue.Contents)
                                  && trace == old(trace) + BatchWrites(sinks, old(queue.Contents))
      ensures sinks == old(sinks) && since == old(since) && stopFlag == old(stopFlag) && accepted == old(accepted)
    {
      var empty := queue.IsEmpty();
      if !stopFlag && empty {
        return Blocked;
      }
      if stopFlag && empty {
        return Exited;
      }
      Drain();
      return Drained;
    }

    /** Teardown: request stop, then let the worker run until it exits. */
    method Teardown()
      requires Valid()
      modifies this, queue, queue.buffer
      ensures Valid() && stopFlag
      ensures queue.Contents == [] && popped == accepted
      ensures trace == old(trace) + BatchWrites(sinks, old(queue.Contents))
      ensures forall k :: 0 <= k < |sinks| ==>
                Received(trace, k) == old(Received(trace, k)) + if sinks[k].Some? then old(queue.Contents) else []
      ensures forall k :: 0 <= k < |sinks| && sinks[k].Some? ==> Received(trace, k) == accepted[since[k]..]
      ensures sinks == old(sinks) && since == old(since) && accepted == old(accepted)
    {
      stopFlag := true;
      var exited := false;
      while !exited
        invariant Valid() && stopFlag
        invariant exited ==> queue.Contents == []
        invariant || (queue.Contents == old(queue.Contents) && trace == old(trace))
                  || (queue.Contents == [] && trace == old(trace) + BatchWrites(sinks, old(queue.Contents)))
        invariant sinks == old(sinks) && since == old(since) && accepted == old(accepted)
        decreases (if exited then 0 else 1) + |queue.Contents|
      {
        var step := WorkerStep();
        exited := step == Exited;
      }
      assert old(queue.Contents) == [] ==> BatchWrites(sinks, old(queue.Contents)) == [];
      forall k | 0 <= k < |sinks|
        ensures Received(trace, k) == old(Received(trace, k)) + if sinks[k].Some? then old(queue.Contents) else []
      {
        ReceivedAppend(old(trace), BatchWrites(sinks, old(queue.Contents)), k);
        ReceivedBatch(sinks, old(queue.Contents), k);
      }
    }
  }

  function Min(a: nat, b: nat): nat { if a < b then a else b }

  /** Registers the sinks of `sinkList` in order on an idle manager. */
  method RegisterAll(manager: LogManager, sinkList: seq<Option<SinkSpec>>)
    requires manager.Valid() && manager.sinks == [] && manager.trace == [] && manager.queue.Contents == []
    modifies manager
    ensures manager.Valid() && manager.sinks == sinkList
    ensures manager.trace == [] && manager.queue.Contents == []
  {
    var i := 0;
    while i < |sinkList|
      invariant 0 <= i <= |sinkList|
      invariant manager.Valid()
      invariant manager.sinks == sinkList[..i]
      invariant manager.trace == [] && manager.queue.Contents == []
    {
      manager.AddSink(sinkList[i]);
      assert sinkList[..i + 1] == sinkList[..i] + [sinkList[i]];
      i := i + 1;
    }
    assert sinkList[..i] == sinkList;
  }

  /** Offers every record of `msgs` in order to a manager whose worker is not scheduled. */
  method OfferAll(manager: LogManager, msgs: seq<LogMessage>)
    requires manager.Valid() && manager.queue.Contents == []
    modifies manager, manager.queue, manager.queue.buffer
    ensures manager.Valid()
    ensures manager.queue.Contents == msgs[..Min(|msgs|, manager.queue.Cap)]
    ensures manager.sinks == old(manager.sinks) && manager.trace == old(manager.trace)
  {
    var j := 0;
    while j < |msgs|
      invariant 0 <= j <= |msgs|
      invariant manager.Valid()
      invariant manager.sinks == old(manager.sinks) && manager.trace == old(manager.trace)
      invariant manager.queue.Contents == msgs[..Min(j, manager.queue.Cap)]
    {
      manager.AddLog(msgs[j]);
      if j < manager.queue.Cap {
        assert msgs[..j + 1] == msgs[..j] + [msgs[j]];
      }
      j := j + 1;
    }
  }

  /**
   * Register `sinkList`, offer `msgs` while the worker is not scheduled, then
   * tear down.  The first `capacity` records reach every non-null sink exactly
   * once and in order; the rest are dropped and reach no sink.
   */
  method DeliverAll(capacity: nat, sinkList: seq<Option<SinkSpec>>, msgs: seq<LogMessage>)
    returns (received: seq<seq<LogMessage>>)
    ensures |received| == |sinkList|
    ensures forall k :: 0 <= k < |sinkList| ==>
              received[k] == if sinkList[k].Some? then msgs[..Min(|msgs|, capacity)] else []
  {
    var manager := new LogManager(capacity);
    RegisterAll(manager, sinkList);
    OfferAll(manager, msgs);
    manager.Teardown();
    var trace := manager.trace;
    received := seq(|sinkList|, k requires 0 <= k < |sinkList| => Received(trace, k));
    forall n | 0 <= n < |sinkList|
      ensures received[n] == if sinkList[n].Some? then msgs[..Min(|msgs|, capacity)] else []
    {
      ReceivedBatch(sinkList, msgs[..Min(|msgs|, capacity)], n);
    }
  }

  /** A manager with one sink that has already drained the record `a`. */
  method DrainedOne(a: LogMessage) returns (manager: LogManager, first: WorkerStep)
    ensures fresh(manager) && fresh(manager.queue) && fresh(manager.queue.buffer)
    ensures manager.Valid() && first == Drained && !manager.stopFlag
    ensures manager.queue.Cap == 2 && manager.queue.Contents == []
    ensures manager.sinks == [Some(ConsoleSink)] && manager.since == [0]
    ensures manager.accepted == [a] && manager.popped == [a]
  {
    manager := new LogManager(2);
    manager.AddSink(Some(ConsoleSink));
    manager.AddLog(a);
    assert manager.queue.Contents == [a];
    first := manager.WorkerStep();
  }

  /**
   * A sink registered after the worker has drained a record never receives
   * that record: sink 0 gets `a` and `b`, the later sink 1 only `b`.
   */
  method LateSinkScenario(a: LogMessage, b: LogMessage) returns (received: seq<seq<LogMessage>>, first: WorkerStep)
    ensures first == Drained
    ensures received == [[a, b], [b]]
  {
    var manager;
    manager, first := DrainedOne(a);
    manager.AddSink(Some(ConsoleSink));
    assert manager.since == [0, 1] && manager.sinks == [Some(ConsoleSink), Some(ConsoleSink)];
    manager.AddLog(b);
    assert manager.accepted == [a, b];
    manager.Teardown();
    var trace := manager.trace;
    ghost var accepted, since := manager.accepted, manager.since;
    assert Received(trace, 0) == accepted[since[0]..] && Received(trace, 1) == accepted[since[1]..];
    assert accepted[0..] == [a, b] && accepted[1..] == [b];
    received := [Received(trace, 0), Received(trace, 1)];
  }
}
