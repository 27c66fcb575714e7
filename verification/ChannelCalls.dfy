/**
 The callbacks of QGrpcChannelStream and QGrpcChannelCall as they update the fields of
 their object. The two classes share everything but newData.
 */
module ChannelCalls {
  import opened Wire
  import opened CallReader
  import opened GrpcCalls

  class ChannelCall {
    const kind: Kind
    var readerState: ReaderState
    var refCount: int
    var responseParsed: Bytes
    ghost var newDataTags: nat
    ghost var finishReadTags: nat
    ghost var held: bool
    ghost var connected: bool
    ghost var destroyed: nat
    ghost var dataReady: seq<Bytes>
    ghost var finished: nat

    ghost function View(): Call
      reads this
    {
      Call(kind, readerState, refCount, responseParsed, newDataTags, finishReadTags,
           held, connected, destroyed, dataReady, finished)
    }

    constructor (kind: Kind)
      ensures View() == Call(kind, FirstCall, 1, [], 0, 0, true, true, 0, [], 0)
    {
      this.kind, readerState, refCount, responseParsed := kind, FirstCall, 1, [];
      newDataTags, finishReadTags, held, connected := 0, 0, true, true;
      destroyed, dataReady, finished := 0, [], 0;
    }

    /** Creating the reader and asking for the final status take a reference each. */
    method StartReader()
      modifies this
      ensures View() == old(View()).(refCount := old(refCount) + 2,
                                     newDataTags := old(newDataTags) + 1,
                                     finishReadTags := old(finishReadTags) + 1)
    {
      refCount := refCount + 1;
      newDataTags := newDataTags + 1;
      refCount := refCount + 1;
      finishReadTags := finishReadTags + 1;
    }

    method Release()
      modifies this
      ensures View() == Deref(old(View()))
    {
      refCount := refCount - 1;
      if refCount == 0 { destroyed := destroyed + 1; }
    }

    method CallRead()
      modifies this
      ensures View() == GrpcCalls.Read(old(View()))
    {
      refCount := refCount + 1;
      newDataTags := newDataTags + 1;
    }

    method StreamNewData(ok: bool, parsed: Parsed)
      requires kind == ServerStream && newDataTags > 0
      modifies this
      ensures View() == NewDataStep(old(View()), ok, parsed)
    {
      newDataTags := newDataTags - 1;
      if !ok {
        readerState := Ended;
      } else if readerState == FirstCall {
        CallRead();
        readerState := Processing;
      } else if readerState == Processing {
        if parsed.Malformed? {
          readerState := Ended;
        } else {
          dataReady := dataReady + [parsed.data];
          CallRead();
        }
      }
      Release();
    }

    method CallNewData(ok: bool, parsed: Parsed)
      requires kind == UnaryCall && newDataTags > 0
      modifies this
      ensures View() == NewDataStep(old(View()), ok, parsed)
    {
      newDataTags := newDataTags - 1;
      if ok && readerState == FirstCall {
        CallRead();
        readerState := Processing;
      } else if ok && readerState == Processing {
        if parsed.Message? { responseParsed := parsed.data; }
        readerState := Ended;
      }
      Release();
    }

    method FinishRead()
      requires finishReadTags > 0
      modifies this
      ensures View() == FinishReadStep(old(View()))
    {
      finishReadTags := finishReadTags - 1;
      finished := finished + 1;
      connected := false;
      Release();
    }

    method SharedPtrReleased()
      modifies this
      ensures View() == Deref(old(View()).(held := false))
    {
      held := false;
      Release();
    }
  }

  method Start(kind: Kind) returns (c: ChannelCall)
    ensures fresh(c) && c.View() == Started(kind)
  {
    c := new ChannelCall(kind);
    c.StartReader();
  }
}
