/**
 The callbacks of QGrpcChannelStreamBidirect as they update the fields of the object.
 The native library, the shared pointers and the history are ghost fields.
 */
module ChannelStreamBidirect {
  import opened Wire
  import opened CallReader
  import opened BidirectStream

  class ChannelStream {
    var readerState: ReaderState
    var inProcess: bool
    var sendQueue: seq<Item>
    var currentWriteReply: Current
    var refCount: int
    ghost var tags: Tags
    ghost var held: bool
    ghost var connected: bool
    ghost var destroyed: nat
    ghost var log: Log

    ghost function View(): Stream
      reads this
    {
      Stream(readerState, inProcess, sendQueue, currentWriteReply, refCount, tags, held, connected, destroyed, log)
    }

    constructor ()
      ensures View() == Stream(FirstCall, false, [], Nobody, 1, Tags(0, 0, 0), true, true, 0,
                               Log([], [], [], false, false, Nobody, []))
    {
      readerState, inProcess, sendQueue, currentWriteReply, refCount := FirstCall, false, [], Nobody, 1;
      tags, held, connected, destroyed := Tags(0, 0, 0), true, true, 0;
      log := Log([], [], [], false, false, Nobody, []);
    }

    method StartReader()
      modifies this
      ensures View() == old(View()).(inProcess := true, refCount := old(refCount) + 2,
                                     tags := Tags(old(tags).newData + 1, old(tags).finishRead + 1, old(tags).finishWrite))
    {
      inProcess := true;
      refCount := refCount + 1;
      tags := tags.(newData := tags.newData + 1);
      refCount := refCount + 1;
      tags := tags.(finishRead := tags.finishRead + 1);
    }

    /** m_refCount.deref(): whether references are left; if not, the object is deleted. */
    method Release() returns (alive: bool)
      modifies this
      ensures View() == Deref(old(View()))
      ensures alive <==> refCount != 0
    {
      refCount := refCount - 1;
      alive := refCount != 0;
      if !alive { destroyed := destroyed + 1; }
    }

    method CallWriter(c: Call)
      modifies this
      ensures View() == Issue(old(View()), c)
    {
      refCount := refCount + 1;
      tags := tags.(finishWrite := tags.finishWrite + 1);
      log := log.(issued := log.issued + [c]);
    }

    method CallRead()
      modifies this
      ensures View() == BidirectStream.Read(old(View()))
    {
      refCount := refCount + 1;
      tags := tags.(newData := tags.newData + 1);
    }

    method WriteDone(reply: Reply)
      modifies this
      ensures View() == WriteDoneStep(old(View()), reply)
    {
      var d := Item([], reply, true);
      log := log.(asked := log.asked + [d]);
      if inProcess {
        sendQueue := sendQueue + [d];
      } else {
        currentWriteReply := Waiting(reply);
        CallWriter(WritesDone);
      }
      var _ := Release();
    }

    method AppendToSend(data: Bytes, reply: Reply)
      modifies this
      ensures View() == AppendStep(old(View()), data, reply)
    {
      var d := Item(data, reply, false);
      log := log.(asked := log.asked + [d]);
      if inProcess {
        sendQueue := sendQueue + [d];
        return;
      }
      inProcess := true;
      currentWriteReply := Waiting(reply);
      CallWriter(Write(data));
    }

    /** The tag of a read comes back; `parsed` is what its buffer was parsed to. */
    method NewData(ok: bool, parsed: Parsed)
      requires tags.newData > 0
      modifies this
      ensures View() == NewDataStep(old(View()), ok, parsed)
    {
      tags := tags.(newData := tags.newData - 1);
      if !ok {
        readerState := Ended;
      } else if readerState == FirstCall {
        DequeueWrite();
        CallRead();
        readerState := Processing;
      } else if readerState == Processing {
        if parsed.Malformed? {
          readerState := Ended;
        } else {
          log := log.(dataReady := log.dataReady + [parsed.data]);
          CallRead();
        }
      }
      var _ := Release();
    }

    method FinishRead()
      requires tags.finishRead > 0
      modifies this
      ensures View() == FinishReadStep(old(View()))
    {
      hide Deref, Failures;
      tags := tags.(finishRead := tags.finishRead - 1);
      log := log.(cutOff := if inProcess then currentWriteReply else Nobody);
      if inProcess && currentWriteReply.Waiting? {
        log := log.(settled := log.settled + [Settlement(currentWriteReply.reply, false)]);
      }
      assert old(log.settled) + [] == old(log.settled);
      FailQueue();
      connected := false;
      log := log.(flushed := true);
      var _ := Release();
    }

    /** The loop of finishRead over the queue. */
    method FailQueue()
      modifies this`sendQueue, this`log
      ensures sendQueue == []
      ensures log == old(log).(settled := old(log).settled + Failures(old(sendQueue)))
    {
      hide Failures;
      ghost var items, before, k: nat := sendQueue, log, 0;
      assert Failures(items[..0]) == [] by { FailuresNone(); }
      while sendQueue != []
        invariant k + |sendQueue| == |items| && sendQueue == items[k..]
        invariant log == before.(settled := before.settled + Failures(items[..k]))
        decreases |sendQueue|
      {
        var d := sendQueue[0];
        FailuresGrow(items, k);
        log := log.(settled := log.settled + [Settlement(d.reply, false)]);
        sendQueue := sendQueue[1..];
        k := k + 1;
      }
      assert items[..k] == items;
    }

    method FinishWrite(ok: bool)
      requires tags.finishWrite > 0
      modifies this
      ensures View() == FinishWriteStep(old(View()), ok)
    {
      tags := tags.(finishWrite := tags.finishWrite - 1);
      match currentWriteReply {
        case Waiting(r) => log := log.(settled := log.settled + [Settlement(r, ok)]);
        case Nobody => log := log.(nullReply := true);
      }
      var alive := Release();
      if alive {
        DequeueWrite();
      }
    }

    method DequeueWrite()
      modifies this
      ensures View() == BidirectStream.DequeueWrite(old(View()))
    {
      inProcess := sendQueue != [];
      if inProcess {
        var d := sendQueue[0];
        sendQueue := sendQueue[1..];
        if d.done {
          CallWriter(WritesDone);
        } else {
          currentWriteReply := Waiting(d.reply);
          CallWriter(Write(d.data));
        }
      }
    }

    /** The deleter of the shared pointers. */
    method SharedPtrReleased()
      modifies this
      ensures View() == Deref(old(View()).(held := false))
    {
      held := false;
      var _ := Release();
    }
  }

  lemma {:induction false} FailuresNone()
    ensures Failures([]) == []
  {
  }

  lemma {:induction false} FailuresGrow(items: seq<Item>, k: nat)
    requires k < |items|
    ensures Failures(items[..k + 1]) == Failures(items[..k]) + [Settlement(items[k].reply, false)]
  {
  }

  /** The object that the model starts from is the constructed one with its reader started. */
  method Start() returns (c: ChannelStream)
    ensures fresh(c) && c.View() == STARTED
  {
    c := new ChannelStream();
    c.StartReader();
  }
}
