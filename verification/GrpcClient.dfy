/**
 The same table as the client updates it in place, and the fan-out of a stream.
 */
module GrpcClient {
  import opened Wire
  import opened ActiveStreams

  class ClientTable {
    var streams: seq<StreamObject>
    var activeStreams: seq<nat>

    ghost predicate Valid()
      reads this
    {
      InTable(View([]))
    }

    ghost function View(answers: seq<Answer>): Client
      reads this
    {
      Client(streams, activeStreams, answers)
    }

    constructor ()
      ensures Valid() && View([]) == EMPTY
    {
      streams, activeStreams := [], [];
    }

    /** std::find_if over the table. */
    method FindEqual(k: StreamKey) returns (p: nat)
      requires Valid()
      ensures p == ActiveStreams.Find(View([]), k)
    {
      p := 0;
      while p < |activeStreams| && streams[activeStreams[p]].key != k
        invariant p <= |activeStreams|
        invariant Position(streams, activeStreams, k, 0) == Position(streams, activeStreams, k, p)
      {
        p := p + 1;
      }
    }

    method Finish(id: nat)
      requires Valid() && id < |streams|
      modifies this
      ensures View([]) == OnFinished(old(View([])), id)
    {
      if streams[id].watched {
        var p := FindEqual(streams[id].key);
        if p < |activeStreams| {
          activeStreams := activeStreams[..p] + activeStreams[p + 1..];
        }
        streams := streams[id := streams[id].(watched := false)];
      }
    }

    /** `atOnce` says whether the channel finishes the stream while it is given to it. */
    method Stream(k: StreamKey, handler: MaybeHandler, atOnce: bool) returns (id: nat)
      requires Valid()
      modifies this
      ensures Valid()
      ensures (View([]), id) == OnRequest(old(View([])), k, handler, atOnce)
    {
      var p := FindEqual(k);
      if p < |activeStreams| {
        id := activeStreams[p];
        streams := streams[id := streams[id].(handlers := streams[id].handlers + ActiveStreams.Handlers(handler))];
        return;
      }
      id := |streams|;
      streams := streams + [StreamObject(k, ActiveStreams.Handlers(handler), true, atOnce)];
      if atOnce {
        Finish(id);
      }
      activeStreams := activeStreams + [id];
    }
  }

  datatype HandlerCall = HandlerCall(handler: Handler, data: Bytes)

  /** QGrpcStream::handler: every handler, in the order they were added, gets the data. */
  method FanOut(handlers: seq<Handler>, data: Bytes) returns (calls: seq<HandlerCall>)
    ensures |calls| == |handlers|
    ensures forall i :: 0 <= i < |handlers| ==> calls[i] == HandlerCall(handlers[i], data)
  {
    calls := [];
    for i := 0 to |handlers|
      invariant |calls| == i
      invariant forall j :: 0 <= j < i ==> calls[j] == HandlerCall(handlers[j], data)
    {
      calls := calls + [HandlerCall(handlers[i], data)];
    }
  }
}
